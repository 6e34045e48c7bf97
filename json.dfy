/** JSON text as Python's `json` module writes and reads it: `json.dumps` with
    its defaults (`ensure_ascii`, separators `", "` and `": "`), and
    `json.loads` as its C scanner accepts input (RFC 8259 plus the `NaN`,
    `Infinity` and `-Infinity` constants; strings are strict, so raw control
    characters are refused). */
module Json {
  import opened Wrappers

  datatype Value =
    | Null
    | Bool(b: bool)
    | Number(text: string)       // the literal as written
    | Constant(name: string)     // NaN, Infinity or -Infinity
    | Str(s: string)
    | Array(elements: seq<Value>)
    | Object(members: seq<(string, Value)>)

  // ---------------------------------------------------------------------------
  // Characters.

  const Backspace: char := 8 as char
  const FormFeed: char := 12 as char
  const ByteOrderMark: char := 0xFEFF as char

  predicate IsWhitespace(c: char) {
    c == ' ' || c == '\t' || c == '\n' || c == '\r'
  }

  predicate IsDigit(c: char) {
    '0' <= c <= '9'
  }

  predicate IsHexDigit(c: char) {
    ('0' <= c <= '9') || ('a' <= c <= 'f') || ('A' <= c <= 'F')
  }

  function HexDigitValue(c: char): (v: int)
    requires IsHexDigit(c)
    ensures 0 <= v < 16
  {
    if '0' <= c <= '9' then c as int - '0' as int
    else if 'a' <= c <= 'f' then c as int - 'a' as int + 10
    else c as int - 'A' as int + 10
  }

  /** The lower-case hex digit Python writes. */
  function HexDigit(v: int): (c: char)
    requires 0 <= v < 16
    ensures IsHexDigit(c) && HexDigitValue(c) == v
  {
    if v < 10 then ('0' as int + v) as char else ('a' as int + v - 10) as char
  }

  predicate AllHex(s: string) {
    forall i :: 0 <= i < |s| ==> IsHexDigit(s[i])
  }

  /** The value of the four hex digits of a `\uXXXX` escape. */
  function Hex4Value(s: string): (v: int)
    requires |s| == 4 && AllHex(s)
    ensures 0 <= v < 0x10000
  {
    HexDigitValue(s[0]) * 4096 + HexDigitValue(s[1]) * 256 + HexDigitValue(s[2]) * 16 + HexDigitValue(s[3])
  }

  /** Four lower-case hex digits. */
  function Hex4(n: int): (s: string)
    requires 0 <= n < 0x10000
    ensures |s| == 4 && AllHex(s)
  {
    var low12 := n % 4096;
    var low8 := low12 % 256;
    [HexDigit(n / 4096), HexDigit(low12 / 256), HexDigit(low8 / 16), HexDigit(low8 % 16)]
  }

  lemma Hex4Value4(n: int)
    requires 0 <= n < 0x10000
    ensures Hex4Value(Hex4(n)) == n
  {
    var low12 := n % 4096;
    var low8 := low12 % 256;
    assert low8 == low8 / 16 * 16 + low8 % 16;
    assert low12 == low12 / 256 * 256 + low8;
    assert n == n / 4096 * 4096 + low12;
  }

  predicate IsHighSurrogate(n: int) {
    0xD800 <= n < 0xDC00
  }

  predicate IsLowSurrogate(n: int) {
    0xDC00 <= n < 0xE000
  }

  // ---------------------------------------------------------------------------
  // Writing.

  /** The letter of a two-character escape `ensure_ascii` writes. */
  function ShortEscape(c: char): Option<char> {
    if c == '\\' then Some('\\')
    else if c == '"' then Some('"')
    else if c == Backspace then Some('b')
    else if c == FormFeed then Some('f')
    else if c == '\n' then Some('n')
    else if c == '\r' then Some('r')
    else if c == '\t' then Some('t')
    else None
  }

  /** `\uXXXX`, and a surrogate pair of them beyond U+FFFF. */
  function UnicodeEscape(n: int): string
    requires 0 <= n < 0x110000
  {
    if n < 0x10000 then "\\u" + Hex4(n)
    else "\\u" + Hex4(0xD800 + (n - 0x10000) / 0x400) + "\\u" + Hex4(0xDC00 + (n - 0x10000) % 0x400)
  }

  /** One character of a string literal with `ensure_ascii`: the two-character
      escapes, printable ASCII as itself, everything else as `\uXXXX`. */
  function EscapeChar(c: char): string {
    match ShortEscape(c)
    case Some(x) => ['\\', x]
    case None => if ' ' <= c <= '~' then [c] else UnicodeEscape(c as int)
  }

  /** The inside of a string literal. */
  function Escape(s: string): string {
    if s == [] then [] else EscapeChar(s[0]) + Escape(s[1..])
  }

  function Quote(s: string): string {
    "\"" + Escape(s) + "\""
  }

  /** Printable ASCII, from the space to the tilde. */
  predicate Printable(s: string) {
    forall i :: 0 <= i < |s| ==> ' ' <= s[i] <= '~'
  }

  lemma PrintableJoin(a: string, b: string)
    requires Printable(a) && Printable(b)
    ensures Printable(a + b)
  {
    forall i | 0 <= i < |a + b| ensures ' ' <= (a + b)[i] <= '~' {
      if i >= |a| {
        assert (a + b)[i] == b[i - |a|];
      }
    }
  }

  lemma Hex4Printable(n: int)
    requires 0 <= n < 0x10000
    ensures Printable(Hex4(n))
  {
    var s := Hex4(n);
    forall i | 0 <= i < 4 ensures ' ' <= s[i] <= '~' {
      assert IsHexDigit(s[i]);
    }
  }

  lemma UnicodeEscapePrintable(n: int)
    requires 0 <= n < 0x110000
    ensures Printable(UnicodeEscape(n))
  {
    assert Printable("\\u");
    if n < 0x10000 {
      Hex4Printable(n);
      PrintableJoin("\\u", Hex4(n));
    } else {
      var hi, lo := Hex4(0xD800 + (n - 0x10000) / 0x400), Hex4(0xDC00 + (n - 0x10000) % 0x400);
      Hex4Printable(0xD800 + (n - 0x10000) / 0x400);
      Hex4Printable(0xDC00 + (n - 0x10000) % 0x400);
      PrintableJoin("\\u", hi);
      PrintableJoin("\\u" + hi, "\\u");
      PrintableJoin("\\u" + hi + "\\u", lo);
    }
  }

  lemma EscapeCharPrintable(c: char)
    ensures Printable(EscapeChar(c))
  {
    if ShortEscape(c).None? && !(' ' <= c <= '~') {
      UnicodeEscapePrintable(c as int);
    }
  }

  /** `ensure_ascii`: a written literal holds printable ASCII only. */
  lemma {:induction false} EscapeIsAscii(s: string)
    ensures Printable(Escape(s))
  {
    if s != [] {
      EscapeCharPrintable(s[0]);
      EscapeIsAscii(s[1..]);
      PrintableJoin(EscapeChar(s[0]), Escape(s[1..]));
    }
  }

  // ---------------------------------------------------------------------------
  // Reading, from the remaining input.

  function SkipWhitespace(s: string): (r: string)
    ensures |r| <= |s| && r == s[|s| - |r|..]
    ensures forall i :: 0 <= i < |s| - |r| ==> IsWhitespace(s[i])
    ensures r == [] || !IsWhitespace(r[0])
  {
    if s != [] && IsWhitespace(s[0]) then SkipWhitespace(s[1..]) else s
  }

  function Cons<T>(c: T, r: Option<(seq<T>, string)>): Option<(seq<T>, string)> {
    match r
    case None => None
    case Some((xs, rest)) => Some(([c] + xs, rest))
  }

  /** The escape after a backslash that stands for one character. */
  function SimpleEscape(c: char): Option<char> {
    if c == '"' then Some('"')
    else if c == '\\' then Some('\\')
    else if c == '/' then Some('/')
    else if c == 'b' then Some(Backspace)
    else if c == 'f' then Some(FormFeed)
    else if c == 'n' then Some('\n')
    else if c == 'r' then Some('\r')
    else if c == 't' then Some('\t')
    else None
  }

  /** `scanstring` from just after the opening quote: the text up to the
      closing quote and the input after it. A `\uXXXX` needs at least one more
      character after its digits; a high surrogate followed by a `\uXXXX` low
      surrogate is joined into one character; a surrogate left on its own is
      refused (a Dafny character cannot hold one). */
  function ScanString(s: string): (r: Option<(string, string)>)
    ensures r.Some? ==> |r.value.1| < |s|
    decreases |s|
  {
    if s == [] then None
    else if s[0] == '"' then Some(([], s[1..]))
    else if s[0] == '\\' then
      if |s| == 1 then None
      else if s[1] == 'u' then
        var t := s[2..];
        if |t| <= 4 || !AllHex(t[..4]) then None
        else
          var c := Hex4Value(t[..4]);
          var after := t[4..];
          if IsHighSurrogate(c) && |after| > 6 && after[0] == '\\' && after[1] == 'u' then
            if !AllHex(after[2..6]) then None
            else
              var c2 := Hex4Value(after[2..6]);
              if IsLowSurrogate(c2) then
                Cons((0x10000 + (c - 0xD800) * 0x400 + (c2 - 0xDC00)) as char, ScanString(after[6..]))
              else None
          else if IsHighSurrogate(c) || IsLowSurrogate(c) then None
          else Cons(c as char, ScanString(after))
      else
        match SimpleEscape(s[1])
        case None => None
        case Some(c) => Cons(c, ScanString(s[2..]))
    else if s[0] as int < 0x20 then None
    else Cons(s[0], ScanString(s[1..]))
  }

  /** The number of leading ASCII digits. */
  function DigitRun(s: string): (n: nat)
    ensures n <= |s|
    ensures forall i :: 0 <= i < n ==> IsDigit(s[i])
    ensures n < |s| ==> !IsDigit(s[n])
  {
    if s != [] && IsDigit(s[0]) then 1 + DigitRun(s[1..]) else 0
  }

  /** `int()` refuses a literal of more digits than this (Python's limit on
      integer string conversion). */
  const MaxIntDigits := 4300

  /** `_match_number`: `-?(0|[1-9][0-9]*)`, then `.` and digits only when a
      digit follows the point, then an exponent only when it has a digit
      (otherwise the number ends before the `e`). */
  function MatchNumber(s: string): (r: Option<(Value, string)>)
    ensures r.Some? ==> |r.value.1| < |s|
  {
    var a := if s != [] && s[0] == '-' then 1 else 0;
    if a >= |s| then None
    else if !IsDigit(s[a]) then None
    else
      var b := if s[a] == '0' then a + 1 else a + 1 + DigitRun(s[a + 1..]);
      var hasFraction := b + 1 < |s| && s[b] == '.' && IsDigit(s[b + 1]);
      var c := if hasFraction then b + 2 + DigitRun(s[b + 2..]) else b;
      var signed := c + 2 < |s| && (s[c + 1] == '-' || s[c + 1] == '+');
      var digitsAt := if signed then c + 2 else c + 1;
      var hasExponent := c + 1 < |s| && (s[c] == 'e' || s[c] == 'E')
        && digitsAt < |s| && IsDigit(s[digitsAt]);
      var d := if hasExponent then digitsAt + DigitRun(s[digitsAt..]) else c;
      if !hasFraction && !hasExponent && b - a > MaxIntDigits then None
      else Some((Number(s[..d]), s[d..]))
  }

  predicate HasPrefix(s: string, p: string) {
    |p| <= |s| && s[..|p|] == p
  }

  /** `scan_once`: one value at the head of `s`. */
  function ParseValue(s: string): (r: Option<(Value, string)>)
    ensures r.Some? ==> |r.value.1| < |s|
    decreases |s|, 0
  {
    if s == [] then None
    else if s[0] == '"' then
      match ScanString(s[1..])
      case None => None
      case Some((text, rest)) => Some((Str(text), rest))
    else if s[0] == '{' then ParseObject(s[1..])
    else if s[0] == '[' then ParseArray(s[1..])
    else if HasPrefix(s, "null") then Some((Null, s[4..]))
    else if HasPrefix(s, "true") then Some((Bool(true), s[4..]))
    else if HasPrefix(s, "false") then Some((Bool(false), s[5..]))
    else if HasPrefix(s, "NaN") then Some((Constant("NaN"), s[3..]))
    else if HasPrefix(s, "Infinity") then Some((Constant("Infinity"), s[8..]))
    else if HasPrefix(s, "-Infinity") then Some((Constant("-Infinity"), s[9..]))
    else MatchNumber(s)
  }

  /** `_parse_object` from just after `{`. */
  function ParseObject(s: string): (r: Option<(Value, string)>)
    ensures r.Some? ==> |r.value.1| < |s|
    decreases |s|, 2
  {
    var t := SkipWhitespace(s);
    if t != [] && t[0] == '}' then Some((Object([]), t[1..]))
    else
      match ParseMembers(t)
      case None => None
      case Some((members, rest)) => Some((Object(members), rest))
  }

  /** The members of an object from a key on, up to and past the `}`. */
  function ParseMembers(s: string): (r: Option<(seq<(string, Value)>, string)>)
    ensures r.Some? ==> |r.value.1| < |s|
    decreases |s|, 1
  {
    if s == [] || s[0] != '"' then None
    else
      match ScanString(s[1..])
      case None => None
      case Some((key, afterKey)) =>
        var t := SkipWhitespace(afterKey);
        if t == [] || t[0] != ':' then None
        else
          match ParseValue(SkipWhitespace(t[1..]))
          case None => None
          case Some((v, afterValue)) => MoreMembers((key, v), SkipWhitespace(afterValue))
  }

  /** After a member: `}` ends the object, `,` brings the next member. */
  function MoreMembers(member: (string, Value), s: string): (r: Option<(seq<(string, Value)>, string)>)
    ensures r.Some? ==> |r.value.1| < |s|
    decreases |s|, 0
  {
    if s != [] && s[0] == '}' then Some(([member], s[1..]))
    else if s == [] || s[0] != ',' then None
    else Cons(member, ParseMembers(SkipWhitespace(s[1..])))
  }

  /** `_parse_array` from just after `[`. */
  function ParseArray(s: string): (r: Option<(Value, string)>)
    ensures r.Some? ==> |r.value.1| < |s|
    decreases |s|, 2
  {
    var t := SkipWhitespace(s);
    if t != [] && t[0] == ']' then Some((Array([]), t[1..]))
    else
      match ParseElements(t)
      case None => None
      case Some((elements, rest)) => Some((Array(elements), rest))
  }

  /** The elements of an array from the first one on, up to and past the `]`. */
  function ParseElements(s: string): (r: Option<(seq<Value>, string)>)
    ensures r.Some? ==> |r.value.1| < |s|
    decreases |s|, 1
  {
    match ParseValue(s)
    case None => None
    case Some((v, afterValue)) => MoreElements(v, SkipWhitespace(afterValue))
  }

  /** After an element: `]` ends the array, `,` brings the next element. */
  function MoreElements(element: Value, s: string): (r: Option<(seq<Value>, string)>)
    ensures r.Some? ==> |r.value.1| < |s|
    decreases |s|, 0
  {
    if s != [] && s[0] == ']' then Some(([element], s[1..]))
    else if s == [] || s[0] != ',' then None
    else Cons(element, ParseElements(SkipWhitespace(s[1..])))
  }

  /** `json.loads` of a `str`: no byte order mark, one value between optional
      whitespace, nothing after it. None is the JSONDecodeError. */
  function Loads(text: string): Option<Value> {
    if text != [] && text[0] == ByteOrderMark then None
    else
      match ParseValue(SkipWhitespace(text))
      case None => None
      case Some((v, rest)) => if SkipWhitespace(rest) == [] then Some(v) else None
  }

  /** A member of a decoded object: the dictionary keeps the last value given
      for a key. */
  function Lookup(members: seq<(string, Value)>, key: string): (r: Option<Value>)
    ensures r.None? <==> forall i :: 0 <= i < |members| ==> members[i].0 != key
    ensures r.Some? ==> exists i :: 0 <= i < |members| && members[i] == (key, r.value) &&
                                    (forall j :: i < j < |members| ==> members[j].0 != key)
  {
    if members == [] then None
    else if members[|members| - 1].0 == key then Some(members[|members| - 1].1)
    else Lookup(members[..|members| - 1], key)
  }

  // ---------------------------------------------------------------------------
  // Objects of strings, written and read back.

  /** `json.dumps` of a dictionary of strings, in insertion order. */
  function DumpObject(members: seq<(string, string)>): string {
    if members == [] then "{}" else "{" + DumpMembers(members) + "}"
  }

  function DumpMembers(members: seq<(string, string)>): string
    requires members != []
  {
    var head := Quote(members[0].0) + ": " + Quote(members[0].1);
    if |members| == 1 then head else head + ", " + DumpMembers(members[1..])
  }

  function StrMembers(members: seq<(string, string)>): seq<(string, Value)> {
    seq(|members|, i requires 0 <= i < |members| => (members[i].0, Str(members[i].1)))
  }

  lemma ScanSimpleEscape(c: char, x: char, rest: string)
    requires SimpleEscape(x) == Some(c) && x != 'u'
    ensures ScanString(['\\', x] + rest) == Cons(c, ScanString(rest))
  {
    assert (['\\', x] + rest)[2..] == rest;
  }

  lemma ScanPlain(c: char, rest: string)
    requires c != '"' && c != '\\' && c as int >= 0x20
    ensures ScanString([c] + rest) == Cons(c, ScanString(rest))
  {
    assert ([c] + rest)[1..] == rest;
  }

  lemma ScanBmpEscape(n: int, rest: string)
    requires 0 <= n < 0x10000 && !(0xD800 <= n < 0xE000) && rest != []
    ensures ScanString("\\u" + Hex4(n) + rest) == Cons(n as char, ScanString(rest))
  {
    var s := "\\u" + Hex4(n) + rest;
    Hex4Value4(n);
    var t := s[2..];
    assert t == Hex4(n) + rest;
    assert t[..4] == Hex4(n) && t[4..] == rest;
  }

  lemma ScanPair(hi: int, lo: int, rest: string)
    requires IsHighSurrogate(hi) && IsLowSurrogate(lo) && rest != []
    ensures ScanString("\\u" + Hex4(hi) + "\\u" + Hex4(lo) + rest)
         == Cons((0x10000 + (hi - 0xD800) * 0x400 + (lo - 0xDC00)) as char, ScanString(rest))
  {
    var s := "\\u" + Hex4(hi) + "\\u" + Hex4(lo) + rest;
    Hex4Value4(hi);
    Hex4Value4(lo);
    var t := s[2..];
    assert t == Hex4(hi) + ("\\u" + Hex4(lo) + rest);
    assert t[..4] == Hex4(hi);
    var after := t[4..];
    assert after == "\\u" + Hex4(lo) + rest;
    assert after[2..6] == Hex4(lo) && after[6..] == rest;
  }

  /** The surrogate pair Python writes for a character beyond U+FFFF. */
  lemma SurrogatesJoin(n: int)
    requires 0x10000 <= n < 0x110000
    ensures var hi, lo := 0xD800 + (n - 0x10000) / 0x400, 0xDC00 + (n - 0x10000) % 0x400;
      IsHighSurrogate(hi) && IsLowSurrogate(lo) && 0x10000 + (hi - 0xD800) * 0x400 + (lo - 0xDC00) == n
  {
  }

  lemma ScanUnicodeEscape(n: int, rest: string)
    requires 0 <= n < 0x110000 && !(0xD800 <= n < 0xE000) && rest != []
    ensures ScanString(UnicodeEscape(n) + rest) == Cons(n as char, ScanString(rest))
  {
    if n < 0x10000 {
      ScanBmpEscape(n, rest);
    } else {
      var hi, lo := 0xD800 + (n - 0x10000) / 0x400, 0xDC00 + (n - 0x10000) % 0x400;
      SurrogatesJoin(n);
      ScanPair(hi, lo, rest);
    }
  }

  lemma ScanEscapedChar(c: char, rest: string)
    requires rest != []
    ensures ScanString(EscapeChar(c) + rest) == Cons(c, ScanString(rest))
  {
    match ShortEscape(c)
    case Some(x) =>
      ScanSimpleEscape(c, x, rest);
    case None =>
      if ' ' <= c <= '~' {
        ScanPlain(c, rest);
      } else {
        ScanUnicodeEscape(c as int, rest);
      }
  }

  /** Reading a written string literal gives back the text and the input
      after the closing quote. */
  lemma {:induction false} ScanQuoted(text: string, rest: string)
    ensures ScanString(Escape(text) + "\"" + rest) == Some((text, rest))
  {
    if text == [] {
      assert Escape(text) + "\"" + rest == "\"" + rest;
      assert ("\"" + rest)[1..] == rest;
    } else {
      var tail := Escape(text[1..]) + "\"" + rest;
      assert Escape(text) + "\"" + rest == EscapeChar(text[0]) + tail;
      ScanEscapedChar(text[0], tail);
      ScanQuoted(text[1..], rest);
      assert [text[0]] + text[1..] == text;
    }
  }

  lemma ParseQuoted(text: string, rest: string)
    ensures ParseValue(Quote(text) + rest) == Some((Str(text), rest))
  {
    var s := Quote(text) + rest;
    assert s[1..] == Escape(text) + "\"" + rest;
    ScanQuoted(text, rest);
  }

  lemma SkipNothing(s: string)
    requires s != [] && !IsWhitespace(s[0])
    ensures SkipWhitespace(s) == s
  {
  }

  lemma SkipSpace(s: string)
    requires s != [] && !IsWhitespace(s[0])
    ensures SkipWhitespace(" " + s) == s
  {
    assert (" " + s)[1..] == s;
  }

  lemma ParseMembersStep(s: string, key: string, afterKey: string, v: Value, afterValue: string)
    requires s != [] && s[0] == '"' && ScanString(s[1..]) == Some((key, afterKey))
    requires SkipWhitespace(afterKey) != [] && SkipWhitespace(afterKey)[0] == ':'
    requires ParseValue(SkipWhitespace(SkipWhitespace(afterKey)[1..])) == Some((v, afterValue))
    ensures ParseMembers(s) == MoreMembers((key, v), SkipWhitespace(afterValue))
  {
  }

  lemma ScanKey(key: string, afterKey: string)
    ensures var s := Quote(key) + afterKey;
      s != [] && s[0] == '"' && ScanString(s[1..]) == Some((key, afterKey))
  {
    var s := Quote(key) + afterKey;
    assert s[1..] == Escape(key) + "\"" + afterKey;
    ScanQuoted(key, afterKey);
  }

  lemma ParseColonValue(value: string, tail: string)
    ensures var afterKey := ": " + Quote(value) + tail;
      && SkipWhitespace(afterKey) == afterKey && afterKey[0] == ':'
      && ParseValue(SkipWhitespace(afterKey[1..])) == Some((Str(value), tail))
  {
    var quotedValue := Quote(value) + tail;
    var afterKey := ": " + quotedValue;
    assert ": " + Quote(value) + tail == afterKey;
    SkipNothing(afterKey);
    assert afterKey[1..] == " " + quotedValue;
    SkipSpace(quotedValue);
    ParseQuoted(value, tail);
  }

  lemma ParseMember(key: string, value: string, tail: string)
    requires tail != [] && (tail[0] == '}' || tail[0] == ',')
    ensures ParseMembers(Quote(key) + (": " + Quote(value) + tail)) == MoreMembers((key, Str(value)), tail)
  {
    var afterKey := ": " + Quote(value) + tail;
    ScanKey(key, afterKey);
    ParseColonValue(value, tail);
    SkipNothing(tail);
    ParseMembersStep(Quote(key) + afterKey, key, afterKey, Str(value), tail);
  }

  lemma DumpLastMember(members: seq<(string, string)>, rest: string)
    requires |members| == 1
    ensures DumpMembers(members) + "}" + rest == Quote(members[0].0) + (": " + Quote(members[0].1) + ("}" + rest))
  {
  }

  lemma Regroup(key: string, value: string, more: string, rest: string)
    ensures key + ": " + value + ", " + more + "}" + rest == key + (": " + value + (", " + (more + "}" + rest)))
  {
  }

  lemma DumpNextMember(members: seq<(string, string)>, rest: string)
    requires |members| > 1
    ensures DumpMembers(members) + "}" + rest
         == Quote(members[0].0) + (": " + Quote(members[0].1) + (", " + (DumpMembers(members[1..]) + "}" + rest)))
  {
    var key, value, more := Quote(members[0].0), Quote(members[0].1), DumpMembers(members[1..]);
    assert DumpMembers(members) == key + ": " + value + ", " + more;
    Regroup(key, value, more, rest);
  }

  lemma MoreMembersComma(member: (string, Value), more: string)
    requires more != [] && more[0] == '"'
    ensures MoreMembers(member, ", " + more) == Cons(member, ParseMembers(more))
  {
    assert (", " + more)[1..] == " " + more;
    SkipSpace(more);
  }

  lemma MoreMembersClose(member: (string, Value), rest: string)
    ensures MoreMembers(member, "}" + rest) == Some(([member], rest))
  {
    assert ("}" + rest)[1..] == rest;
  }

  lemma DumpMembersHead(members: seq<(string, string)>, rest: string)
    requires members != []
    ensures var s := DumpMembers(members) + "}" + rest; s != [] && s[0] == '"'
  {
    var key := Quote(members[0].0);
    assert key[0] == '"';
    if |members| == 1 {
      DumpLastMember(members, rest);
    } else {
      DumpNextMember(members, rest);
    }
  }

  lemma ParseLastDumped(members: seq<(string, string)>, rest: string)
    requires |members| == 1
    ensures ParseMembers(DumpMembers(members) + "}" + rest) == Some(([(members[0].0, Str(members[0].1))], rest))
  {
    var k, v := members[0].0, members[0].1;
    DumpLastMember(members, rest);
    ParseMember(k, v, "}" + rest);
    MoreMembersClose((k, Str(v)), rest);
  }

  lemma ParseNextDumped(members: seq<(string, string)>, rest: string)
    requires |members| > 1
    ensures ParseMembers(DumpMembers(members) + "}" + rest)
         == Cons((members[0].0, Str(members[0].1)), ParseMembers(DumpMembers(members[1..]) + "}" + rest))
  {
    var k, v := members[0].0, members[0].1;
    var more := DumpMembers(members[1..]) + "}" + rest;
    DumpNextMember(members, rest);
    ParseMember(k, v, ", " + more);
    DumpMembersHead(members[1..], rest);
    MoreMembersComma((k, Str(v)), more);
  }

  lemma StrMembersOne(members: seq<(string, string)>)
    requires |members| == 1
    ensures StrMembers(members) == [(members[0].0, Str(members[0].1))]
  {
  }

  lemma StrMembersCons(members: seq<(string, string)>)
    requires members != []
    ensures StrMembers(members) == [(members[0].0, Str(members[0].1))] + StrMembers(members[1..])
  {
  }

  lemma {:induction false} ParseDumpedMembers(members: seq<(string, string)>, rest: string)
    requires members != []
    ensures ParseMembers(DumpMembers(members) + "}" + rest) == Some((StrMembers(members), rest))
    decreases |members|
  {
    if |members| == 1 {
      ParseLastDumped(members, rest);
      StrMembersOne(members);
    } else {
      StrMembersCons(members);
      ParseNextDumped(members, rest);
      ParseDumpedMembers(members[1..], rest);
    }
  }

  lemma LoadsObjectText(text: string, v: Value)
    requires text != [] && text[0] == '{' && ParseObject(text[1..]) == Some((v, []))
    ensures Loads(text) == Some(v)
  {
    SkipNothing(text);
  }

  lemma ParseDumpedObject(members: seq<(string, string)>)
    requires members != []
    ensures ParseObject(DumpMembers(members) + "}" + []) == Some((Object(StrMembers(members)), []))
  {
    DumpMembersHead(members, []);
    SkipNothing(DumpMembers(members) + "}" + []);
    ParseDumpedMembers(members, []);
  }

  lemma DumpEmpty(members: seq<(string, string)>)
    requires members == []
    ensures DumpObject(members) == "{}" && StrMembers(members) == []
  {
  }

  lemma LoadsEmptyObject(text: string)
    requires |text| == 2 && text[0] == '{' && text[1] == '}'
    ensures Loads(text) == Some(Object([]))
  {
    var t := text[1..];
    SkipNothing(t);
    assert t[1..] == [];
    assert ParseObject(t) == Some((Object([]), []));
    LoadsObjectText(text, Object([]));
  }

  lemma LoadsDumpedMembers(members: seq<(string, string)>)
    requires members != []
    ensures Loads("{" + DumpMembers(members) + "}") == Some(Object(StrMembers(members)))
  {
    var text := "{" + DumpMembers(members) + "}";
    assert text[1..] == DumpMembers(members) + "}" + [];
    ParseDumpedObject(members);
    LoadsObjectText(text, Object(StrMembers(members)));
  }

  /** `json.loads(json.dumps(d))` gives back the members of `d`, in order. */
  lemma LoadsDumpObject(members: seq<(string, string)>)
    ensures Loads(DumpObject(members)) == Some(Object(StrMembers(members)))
  {
    if members == [] {
      DumpEmpty(members);
      LoadsEmptyObject(DumpObject(members));
    } else {
      LoadsDumpedMembers(members);
    }
  }
}
