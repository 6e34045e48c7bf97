/** Base64 with the URL- and filename-safe alphabet of section 5 of RFC 4648,
    as Python's `base64.urlsafe_b64encode` and `base64.urlsafe_b64decode`
    apply it. The decoder is binascii's lenient one: characters outside the
    alphabet are skipped and decoding stops at the first complete padding. */
module Base64 {
  import opened Wrappers
  import opened Bytes

  /** The standard alphabet of section 4 of RFC 4648. */
  function StdChar(v: int): char
    requires 0 <= v < 64
  {
    if v < 26 then ('A' as int + v) as char
    else if v < 52 then ('a' as int + v - 26) as char
    else if v < 62 then ('0' as int + v - 52) as char
    else if v == 62 then '+'
    else '/'
  }

  /** binascii's decoding table: the value of an alphabet character. */
  function StdValue(c: char): (r: Option<int>)
    ensures r.Some? ==> 0 <= r.value < 64 && StdChar(r.value) == c
  {
    if 'A' <= c <= 'Z' then Some(c as int - 'A' as int)
    else if 'a' <= c <= 'z' then Some(c as int - 'a' as int + 26)
    else if '0' <= c <= '9' then Some(c as int - '0' as int + 52)
    else if c == '+' then Some(62)
    else if c == '/' then Some(63)
    else None
  }

  lemma StdValueOfChar(v: int)
    requires 0 <= v < 64
    ensures StdValue(StdChar(v)) == Some(v)
  {
  }

  // ---------------------------------------------------------------------------
  // Encoding.

  /** Three bytes as four characters. */
  function Group(b0: Byte, b1: Byte, b2: Byte): string {
    [StdChar(b0 / 4), StdChar(b0 % 4 * 16 + b1 / 16), StdChar(b1 % 16 * 4 + b2 / 64), StdChar(b2 % 64)]
  }

  /** `base64.b64encode`: whole groups, then a final group padded with `=`. */
  function StdEncode(b: seq<Byte>): (r: string)
    ensures |r| == (|b| + 2) / 3 * 4
    decreases |b|
  {
    if |b| >= 3 then Group(b[0], b[1], b[2]) + StdEncode(b[3..])
    else if |b| == 2 then [StdChar(b[0] / 4), StdChar(b[0] % 4 * 16 + b[1] / 16), StdChar(b[1] % 16 * 4), '=']
    else if |b| == 1 then [StdChar(b[0] / 4), StdChar(b[0] % 4 * 16), '=', '=']
    else []
  }

  function ToUrlSafeChar(c: char): char {
    if c == '+' then '-' else if c == '/' then '_' else c
  }

  function FromUrlSafeChar(c: char): char {
    if c == '-' then '+' else if c == '_' then '/' else c
  }

  /** `base64.urlsafe_b64encode`: the standard encoding with `+/` made `-_`. */
  function Encode(b: seq<Byte>): (r: string)
    ensures |r| == |StdEncode(b)|
  {
    var s := StdEncode(b);
    seq(|s|, i requires 0 <= i < |s| => ToUrlSafeChar(s[i]))
  }

  // ---------------------------------------------------------------------------
  // Decoding.

  /** `binascii_find_valid` as called on a pad: the first character after it
      that is in the alphabet or is itself a pad. */
  function NextValid(s: string): (r: Option<char>)
    ensures r.Some? ==> r.value == '=' || StdValue(r.value).Some?
  {
    if s == [] then None
    else if s[0] == '=' || StdValue(s[0]).Some? then Some(s[0])
    else NextValid(s[1..])
  }

  /** The bits a group holds before its next character: none at the start of
      a group, then 6, 4 and 2 of them. */
  function PendingLimit(quad: int): int {
    if quad == 0 then 1 else if quad == 1 then 64 else if quad == 2 then 16 else 4
  }

  function Emit(x: Byte, r: Option<seq<Byte>>): Option<seq<Byte>> {
    match r
    case None => None
    case Some(rest) => Some([x] + rest)
  }

  /** `binascii.a2b_base64` from `quad` characters into the current group,
      with `left` the pending bits. A pad ends the input when the group has
      three characters, or two and the next valid character is a pad too;
      other pads and all characters outside the alphabet are skipped. Input
      that ends inside a group is an error (None). */
  function A2b(s: string, quad: int, left: int): Option<seq<Byte>>
    requires 0 <= quad < 4 && 0 <= left < PendingLimit(quad)
    decreases |s|
  {
    if s == [] then
      if quad == 0 then Some([]) else None
    else if s[0] == '=' then
      if quad < 2 || (quad == 2 && NextValid(s[1..]) != Some('=')) then A2b(s[1..], quad, left)
      else Some([])
    else match StdValue(s[0])
      case None => A2b(s[1..], quad, left)
      case Some(v) =>
        if quad == 0 then A2b(s[1..], 1, v)
        else if quad == 1 then Emit(left * 4 + v / 16, A2b(s[1..], 2, v % 16))
        else if quad == 2 then Emit(left * 16 + v / 4, A2b(s[1..], 3, v % 4))
        else Emit(left * 64 + v, A2b(s[1..], 0, 0))
  }

  predicate IsAscii(s: string) {
    forall i :: 0 <= i < |s| ==> s[i] as int < 0x80
  }

  datatype DecodeError =
    | NotAscii    // the ValueError of `str.encode("ascii")`
    | Malformed   // binascii.Error

  /** `base64.urlsafe_b64decode` of a `str`: it must be ASCII, `-_` become
      `+/`, then binascii decodes leniently. */
  function Decode(s: string): (r: Result<seq<Byte>, DecodeError>)
    ensures r == Failure(NotAscii) <==> !IsAscii(s)
  {
    if !IsAscii(s) then Failure(NotAscii)
    else
      var t := seq(|s|, i requires 0 <= i < |s| => FromUrlSafeChar(s[i]));
      match A2b(t, 0, 0)
      case None => Failure(Malformed)
      case Some(b) => Success(b)
  }

  // ---------------------------------------------------------------------------
  // The round trip.

  function Prefix(b: seq<Byte>, r: Option<seq<Byte>>): Option<seq<Byte>> {
    match r
    case None => None
    case Some(rest) => Some(b + rest)
  }

  lemma DecodeGroup(b0: Byte, b1: Byte, b2: Byte, rest: string)
    ensures A2b(Group(b0, b1, b2) + rest, 0, 0) == Prefix([b0, b1, b2], A2b(rest, 0, 0))
  {
    var s := Group(b0, b1, b2) + rest;
    var v0, v1, v2, v3 := b0 / 4, b0 % 4 * 16 + b1 / 16, b1 % 16 * 4 + b2 / 64, b2 % 64;
    StdValueOfChar(v0);
    StdValueOfChar(v1);
    StdValueOfChar(v2);
    StdValueOfChar(v3);
    assert v1 / 16 == b0 % 4 && v1 % 16 == b1 / 16;
    assert v2 / 4 == b1 % 16 && v2 % 4 == b2 / 64;
    assert s[1..][1..][1..][1..] == rest;
    assert A2b(s, 0, 0) == A2b(s[1..], 1, v0);
    assert A2b(s[1..], 1, v0) == Emit(b0, A2b(s[1..][1..], 2, b1 / 16));
    assert A2b(s[1..][1..], 2, b1 / 16) == Emit(b1, A2b(s[1..][1..][1..], 3, b2 / 64));
    assert A2b(s[1..][1..][1..], 3, b2 / 64) == Emit(b2, A2b(rest, 0, 0));
    match A2b(rest, 0, 0)
    case None =>
    case Some(r) =>
      assert [b0] + ([b1] + ([b2] + r)) == [b0, b1, b2] + r;
  }

  lemma DecodeTwoBytes(b0: Byte, b1: Byte, rest: string)
    ensures A2b([StdChar(b0 / 4), StdChar(b0 % 4 * 16 + b1 / 16), StdChar(b1 % 16 * 4), '='] + rest, 0, 0)
         == Some([b0, b1])
  {
    var s := [StdChar(b0 / 4), StdChar(b0 % 4 * 16 + b1 / 16), StdChar(b1 % 16 * 4), '='] + rest;
    var v0, v1, v2 := b0 / 4, b0 % 4 * 16 + b1 / 16, b1 % 16 * 4;
    StdValueOfChar(v0);
    StdValueOfChar(v1);
    StdValueOfChar(v2);
    assert v1 / 16 == b0 % 4 && v1 % 16 == b1 / 16;
    assert v2 / 4 == b1 % 16;
    assert s[1..][1..][1..][0] == '=';
    assert A2b(s, 0, 0) == A2b(s[1..], 1, v0);
    assert A2b(s[1..], 1, v0) == Emit(b0, A2b(s[1..][1..], 2, b1 / 16));
    assert A2b(s[1..][1..], 2, b1 / 16) == Emit(b1, A2b(s[1..][1..][1..], 3, 0));
    assert A2b(s[1..][1..][1..], 3, 0) == Some([]);
    assert [b0] + ([b1] + []) == [b0, b1];
  }

  lemma DecodeOneByte(b0: Byte, rest: string)
    ensures A2b([StdChar(b0 / 4), StdChar(b0 % 4 * 16), '=', '='] + rest, 0, 0) == Some([b0])
  {
    var s := [StdChar(b0 / 4), StdChar(b0 % 4 * 16), '=', '='] + rest;
    var v0, v1 := b0 / 4, b0 % 4 * 16;
    StdValueOfChar(v0);
    StdValueOfChar(v1);
    assert v1 / 16 == b0 % 4;
    assert s[1..][1..][0] == '=' && s[1..][1..][1..][0] == '=';
    assert NextValid(s[1..][1..][1..]) == Some('=');
    assert A2b(s, 0, 0) == A2b(s[1..], 1, v0);
    assert A2b(s[1..], 1, v0) == Emit(b0, A2b(s[1..][1..], 2, 0));
    assert A2b(s[1..][1..], 2, 0) == Some([]);
    assert [b0] + [] == [b0];
  }

  lemma PrefixPrefix(a: seq<Byte>, b: seq<Byte>, r: Option<seq<Byte>>)
    ensures Prefix(a, Prefix(b, r)) == Prefix(a + b, r)
  {
    match r
    case None =>
    case Some(x) =>
      assert a + (b + x) == (a + b) + x;
  }

  /** Decoding the standard encoding of `b` followed by anything: whole
      groups let decoding go on into `rest`; a padded final group ends it. */
  lemma {:induction false} DecodeStdEncode(b: seq<Byte>, rest: string)
    ensures A2b(StdEncode(b) + rest, 0, 0) ==
      if |b| % 3 == 0 then Prefix(b, A2b(rest, 0, 0)) else Some(b)
    decreases |b|
  {
    if |b| >= 3 {
      DecodeLongerStdEncode(b, rest);
    } else if |b| == 2 {
      DecodeTwoBytes(b[0], b[1], rest);
      assert [b[0], b[1]] == b;
    } else if |b| == 1 {
      DecodeOneByte(b[0], rest);
      assert [b[0]] == b;
    } else {
      assert StdEncode(b) + rest == rest;
      PrefixPrefix([], [], A2b(rest, 0, 0));
      match A2b(rest, 0, 0)
      case None =>
      case Some(r) =>
        assert b + r == r;
    }
  }

  lemma {:induction false} DecodeLongerStdEncode(b: seq<Byte>, rest: string)
    requires |b| >= 3
    ensures A2b(StdEncode(b) + rest, 0, 0) ==
      if |b| % 3 == 0 then Prefix(b, A2b(rest, 0, 0)) else Some(b)
    decreases |b|, 0
  {
    var later := StdEncode(b[3..]) + rest;
    FirstGroup(b, rest);
    DecodeGroup(b[0], b[1], b[2], later);
    DecodeStdEncode(b[3..], rest);
    JoinGroups(b, A2b(later, 0, 0), A2b(rest, 0, 0));
  }

  lemma FirstGroup(b: seq<Byte>, rest: string)
    requires |b| >= 3
    ensures StdEncode(b) + rest == Group(b[0], b[1], b[2]) + (StdEncode(b[3..]) + rest)
  {
  }

  lemma JoinGroups(b: seq<Byte>, inner: Option<seq<Byte>>, after: Option<seq<Byte>>)
    requires |b| >= 3
    requires inner == if |b[3..]| % 3 == 0 then Prefix(b[3..], after) else Some(b[3..])
    ensures Prefix([b[0], b[1], b[2]], inner) == if |b| % 3 == 0 then Prefix(b, after) else Some(b)
  {
    var head := [b[0], b[1], b[2]];
    assert head + b[3..] == b;
    if |b[3..]| % 3 == 0 {
      PrefixPrefix(head, b[3..], after);
    }
  }

  /** Characters outside the alphabet, pads included, leave the decoder at
      the start of a group where they are. */
  predicate IsJunk(s: string) {
    forall i :: 0 <= i < |s| ==> StdValue(s[i]).None?
  }

  lemma {:induction false} DecodeJunk(s: string)
    requires IsJunk(s)
    ensures A2b(s, 0, 0) == Some([])
  {
    if s != [] {
      assert IsJunk(s[1..]) by {
        forall i | 0 <= i < |s[1..]| ensures StdValue(s[1..][i]).None? {
          assert s[1..][i] == s[i + 1];
        }
      }
      DecodeJunk(s[1..]);
    }
  }

  /** `urlsafe_b64decode(urlsafe_b64encode(b)) == b`; and the decoder also
      accepts the token with any ASCII characters outside both alphabets
      appended, so such a change goes unnoticed. */
  lemma DecodeEncode(b: seq<Byte>, junk: string)
    requires IsAscii(junk) && IsJunk(junk)
    requires forall i :: 0 <= i < |junk| ==> junk[i] != '-' && junk[i] != '_'
    ensures Decode(Encode(b)) == Success(b)
    ensures Decode(Encode(b) + junk) == Success(b)
  {
    RoundTripWith(b, junk);
    RoundTripWith(b, []);
    assert Encode(b) + [] == Encode(b);
  }

  lemma RoundTripWith(b: seq<Byte>, junk: string)
    requires IsAscii(junk) && IsJunk(junk)
    requires forall i :: 0 <= i < |junk| ==> junk[i] != '-' && junk[i] != '_'
    ensures Decode(Encode(b) + junk) == Success(b)
  {
    var std := StdEncode(b);
    var s := Encode(b) + junk;
    assert IsAscii(s) by {
      forall i | 0 <= i < |s| ensures s[i] as int < 0x80 {
        if i >= |std| {
          assert s[i] == junk[i - |std|];
        } else {
          StdCharacters(b, i);
        }
      }
    }
    var t := seq(|s|, i requires 0 <= i < |s| => FromUrlSafeChar(s[i]));
    assert t == std + junk by {
      forall i | 0 <= i < |s| ensures t[i] == (std + junk)[i] {
        if i < |std| {
          assert std[i] != '-' && std[i] != '_' by {
            assert std[i] == '=' || StdValue(std[i]).Some? by { StdCharacters(b, i); }
          }
        }
      }
    }
    DecodeStdEncode(b, junk);
    DecodeJunk(junk);
    assert b + [] == b;
  }

  lemma {:induction false} StdCharacters(b: seq<Byte>, i: int)
    requires 0 <= i < |StdEncode(b)|
    ensures StdEncode(b)[i] == '=' || StdValue(StdEncode(b)[i]).Some?
    decreases |b|
  {
    var s := StdEncode(b);
    if |b| >= 3 {
      var g := Group(b[0], b[1], b[2]);
      if i < 4 {
        assert s[i] == g[i];
        StdValueOfChar(b[0] / 4);
        StdValueOfChar(b[0] % 4 * 16 + b[1] / 16);
        StdValueOfChar(b[1] % 16 * 4 + b[2] / 64);
        StdValueOfChar(b[2] % 64);
      } else {
        assert s[i] == StdEncode(b[3..])[i - 4];
        StdCharacters(b[3..], i - 4);
      }
    } else if |b| == 2 {
      StdValueOfChar(b[0] / 4);
      StdValueOfChar(b[0] % 4 * 16 + b[1] / 16);
      StdValueOfChar(b[1] % 16 * 4);
    } else {
      StdValueOfChar(b[0] / 4);
      StdValueOfChar(b[0] % 4 * 16);
    }
  }

  predicate IsUrlSafeChar(c: char) {
    ('A' <= c <= 'Z') || ('a' <= c <= 'z') || ('0' <= c <= '9') || c == '-' || c == '_' || c == '='
  }

  /** The token uses only the URL-safe alphabet and the pad, so it needs no
      escaping in a query string other than the pad's. */
  lemma EncodeIsUrlSafe(b: seq<Byte>)
    ensures forall i :: 0 <= i < |Encode(b)| ==> IsUrlSafeChar(Encode(b)[i])
  {
    forall i | 0 <= i < |Encode(b)| ensures IsUrlSafeChar(Encode(b)[i]) {
      StdCharacters(b, i);
    }
  }
}
