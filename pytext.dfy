/** The few Python string and number semantics the server code relies on:
    truthiness of an optional string, str.isdigit(), int() on text, and the
    case-insensitive substring test behind the ORM's `__icontains`. */
module PyText {
  import opened Common

  /** `bool(x)` for a value that is None or a str: None and "" are falsy. */
  predicate Truthy(x: Option<string>) { x.Some? && x.value != "" }

  /** `x or ''`: the string when truthy, "" otherwise. */
  function OrEmpty(x: Option<string>): (r: string)
    ensures Truthy(x) ==> r == x.value
    ensures !Truthy(x) ==> r == ""
  {
    if x.Some? then x.value else ""
  }

  /** `s.isdigit()` on ASCII text: non-empty and every character a digit. */
  predicate IsDigitString(s: string) { |s| >= 1 && AllDigits(s) }

  /** `c.isspace()`: the whitespace `int()` and `str.strip()` remove, namely
      the ASCII controls \t \n \v \f \r and \x1c-\x1f, the space, and the
      Unicode separators U+0085, U+00A0, U+1680, U+2000-U+200A, U+2028,
      U+2029, U+202F, U+205F and U+3000. */
  predicate IsSpace(c: char)
  {
    ('\t' <= c <= '\r') || ('\U{1C}' <= c <= ' ') || c == '\U{85}' || c == '\U{A0}' || c == '\U{1680}'
    || ('\U{2000}' <= c <= '\U{200A}') || c == '\U{2028}' || c == '\U{2029}' || c == '\U{202F}'
    || c == '\U{205F}' || c == '\U{3000}'
  }

  /** `s.lstrip()`: the leading white space is dropped, and only that. */
  function StripLeft(s: string): (r: string)
    ensures |r| <= |s| && r == s[|s| - |r|..]
    ensures |r| > 0 ==> !IsSpace(r[0])
    ensures forall i :: 0 <= i < |s| - |r| ==> IsSpace(s[i])
  {
    if |s| > 0 && IsSpace(s[0]) then StripLeft(s[1..]) else s
  }

  /** `s.rstrip()`: the trailing white space is dropped, and only that. */
  function StripRight(s: string): (r: string)
    ensures |r| <= |s| && r == s[..|r|]
    ensures |r| > 0 ==> !IsSpace(r[|r| - 1])
    ensures forall i :: |r| <= i < |s| ==> IsSpace(s[i])
  {
    if |s| > 0 && IsSpace(s[|s| - 1]) then StripRight(s[..|s| - 1]) else s
  }

  /** `s.strip()`: the text without white space at either end. */
  function Strip(s: string): (r: string)
    ensures |r| <= |s|
    ensures |r| > 0 ==> !IsSpace(r[0]) && !IsSpace(r[|r| - 1])
    ensures |s| > 0 && !IsSpace(s[0]) && !IsSpace(s[|s| - 1]) ==> r == s
  {
    StripRight(StripLeft(s))
  }

  /** A text strips to "" exactly when it is all white space. */
  lemma StripBlank(s: string)
    ensures Strip(s) == "" <==> forall i :: 0 <= i < |s| ==> IsSpace(s[i])
  {
  }

  /** `int(s)` for a str: surrounding whitespace, an optional sign, then
      decimal digits; anything else raises ValueError (None here). */
  function ParseInt(s: string): Option<int>
  {
    var t := Strip(s);
    if |t| > 0 && (t[0] == '+' || t[0] == '-') then
      (if IsDigitString(t[1..]) then
         var v: int := DecimalValue(t[1..]);
         Some(if t[0] == '-' then -v else v)
       else None)
    else if IsDigitString(t) then Some(DecimalValue(t))
    else None
  }

  /** What `int()` makes of a text: a blank one is refused, a negative result
      comes from a leading '-', digits alone (after stripping) give their
      decimal value, and a text that starts with anything but a digit or a
      sign is refused. */
  lemma ParseIntSpec(s: string)
    ensures Strip(s) == "" ==> ParseInt(s).None?
    ensures ParseInt(s).Some? && ParseInt(s).value < 0 ==> Strip(s)[0] == '-'
    ensures IsDigitString(Strip(s)) ==> ParseInt(s) == Some(DecimalValue(Strip(s)))
    ensures |Strip(s)| > 0 && !IsAsciiDigit(Strip(s)[0]) && Strip(s)[0] != '+' && Strip(s)[0] != '-' ==>
              ParseInt(s).None?
  {
  }

  /** On a digit string, `int()` is the decimal value. */
  lemma DigitStringParses(s: string)
    requires IsDigitString(s)
    ensures ParseInt(s) == Some(DecimalValue(s))
  {
    assert !IsSpace(s[0]) && !IsSpace(s[|s| - 1]);
    assert StripLeft(s) == s;
    assert StripRight(s) == s;
  }

  /** `int(str(n))` gives n back, for every integer. */
  lemma ParseIntOfDecimal(n: int)
    ensures ParseInt(IntToDecimal(n)) == Some(n)
  {
    if n < 0 {
      NegativeDecimalParses(n);
    } else {
      DigitStringParses(NatToDecimal(n));
      DecimalRoundTrip(n);
    }
  }

  lemma NegativeDecimalParses(n: int)
    requires n < 0
    ensures ParseInt(IntToDecimal(n)) == Some(n)
  {
    var m: nat := -n;
    var d := NatToDecimal(m);
    DecimalRoundTrip(m);
    NegativeParses(IntToDecimal(n), d);
  }

  /** A '-' followed by digits reads as the negated value. */
  lemma NegativeParses(t: string, d: string)
    requires IsDigitString(d) && t == "-" + d
    ensures ParseInt(t) == Some(-(DecimalValue(d) as int))
  {
    SignedNeedsNoStrip(d);
    assert t[1..] == d;
  }

  /** A '-' followed by digits has no white space to strip. */
  lemma SignedNeedsNoStrip(d: string)
    requires IsDigitString(d)
    ensures Strip("-" + d) == "-" + d
  {
    var s := "-" + d;
    var first, last := s[0], s[|s| - 1];
    assert last == d[|d| - 1];
    NotSpace(first);
    NotSpace(last);
    assert StripLeft(s) == s;
    assert StripRight(s) == s;
  }

  /** Neither a digit nor a sign is white space. */
  lemma NotSpace(c: char)
    requires IsAsciiDigit(c) || c == '-' || c == '+'
    ensures !IsSpace(c)
  {
  }

  function AsciiLower(c: char): char
  {
    if 'A' <= c <= 'Z' then (c as int + 32) as char else c
  }

  function LowerText(s: string): (r: string)
    ensures |r| == |s|
    ensures forall i :: 0 <= i < |s| ==> r[i] == AsciiLower(s[i])
  {
    if |s| == 0 then [] else [AsciiLower(s[0])] + LowerText(s[1..])
  }


  /** `field__icontains=needle`, with case folded for ASCII letters. */
  predicate ContainsIgnoreCase(hay: string, needle: string)
  {
    Contains(LowerText(hay), LowerText(needle))
  }

  // ---------------------------------------------------------------------------
  // Values a request field can hold: nothing, a string, or (from JSON) an integer
  // ---------------------------------------------------------------------------

  datatype PyValue = PyNone | PyStr(s: string) | PyInt(i: int)

  /** `bool(v)`: None, "" and 0 are falsy. */
  predicate TruthyValue(v: PyValue)
  {
    match v
    case PyNone => false
    case PyStr(s) => s != ""
    case PyInt(i) => i != 0
  }

  /** `str(v)`. */
  function Str(v: PyValue): string
  {
    match v
    case PyNone => "None"
    case PyStr(s) => s
    case PyInt(i) => IntToDecimal(i)
  }

  /** `int(v)`; None stands for the ValueError or TypeError it raises. */
  function ToInt(v: PyValue): Option<int>
  {
    match v
    case PyNone => None
    case PyStr(s) => ParseInt(s)
    case PyInt(i) => Some(i)
  }

  /** The text a character column holds after `setattr(obj, f, v or '')` and
      `save()`: the string form of a truthy value, "" otherwise. */
  function StoredText(v: PyValue): (r: string)
    ensures !TruthyValue(v) ==> r == ""
    ensures v.PyStr? ==> r == v.s
  {
    if TruthyValue(v) then Str(v) else ""
  }

  /** `int(x or 0)`: a falsy value reads as 0. */
  function IntOrZero(v: PyValue): (r: Option<int>)
    ensures !TruthyValue(v) ==> r == Some(0)
    ensures v.PyInt? ==> r == Some(v.i)
  {
    if TruthyValue(v) then ToInt(v) else Some(0)
  }
}
