// JSON string escaping and UTF-8 validation of bpf/jsonl.h, against section 7 of
// RFC 8259 and section 4 of RFC 3629.
module Jsonl {

  type Byte = b: int | 0 <= b < 256

  type Bytes = seq<Byte>

  // ---- Well-formed UTF-8: the ABNF of RFC 3629, section 4 ----

  predicate Tail(b: Byte) {
    0x80 <= b <= 0xBF
  }

  // The length of the UTF8-char that s starts with, or 0.
  function CharLength(s: Bytes): (n: nat)
    ensures n <= 4 && n <= |s|
  {
    if s == [] then 0
    else if s[0] <= 0x7F then 1
    else if 0xC2 <= s[0] <= 0xDF && |s| >= 2 && Tail(s[1]) then 2
    else if |s| >= 3 && Tail(s[2]) &&
      ((s[0] == 0xE0 && 0xA0 <= s[1] <= 0xBF)
       || (0xE1 <= s[0] <= 0xEC && Tail(s[1]))
       || (s[0] == 0xED && 0x80 <= s[1] <= 0x9F)
       || (0xEE <= s[0] <= 0xEF && Tail(s[1]))) then 3
    else if |s| >= 4 && Tail(s[2]) && Tail(s[3]) &&
      ((s[0] == 0xF0 && 0x90 <= s[1] <= 0xBF)
       || (0xF1 <= s[0] <= 0xF3 && Tail(s[1]))
       || (s[0] == 0xF4 && 0x80 <= s[1] <= 0x8F)) then 4
    else 0
  }

  // ---- validate_utf8_char ----

  // What is known of mbrtowc on one multi-byte candidate: it rejects a bad continuation
  // byte and accepts every well-formed character. Overlong forms, surrogates and code
  // points beyond U+10FFFF it may or may not accept.
  ghost predicate LikeMbrtowc(accepts: Bytes -> bool) {
    forall s: Bytes :: 2 <= |s| <= 4 ==>
      ((exists i :: 1 <= i < |s| && !Tail(s[i])) ==> !accepts(s)) && (CharLength(s) == |s| ==> accepts(s))
  }

  // The masks and shifts of the source, written as arithmetic on byte values:
  // (c & 0xE0) == 0xC0 is c / 32 == 6, x & 0x3F is x % 64, and << 6 with | is * 64 +.
  function ExpectedLength(c: Byte): nat {
    if c < 0x80 then 1
    else if c / 32 == 6 then 2
    else if c / 16 == 14 then 3
    else if c / 8 == 30 then 4
    else 0
  }

  function CodePoint(s: Bytes): nat
    requires 2 <= |s| <= 4
  {
    var c: int, x: int := s[0], s[1];
    if |s| == 2 then (c % 32) * 64 + x % 64
    else
      var y: int := s[2];
      if |s| == 3 then (c % 16) * 4096 + (x % 64) * 64 + y % 64
      else
        var z: int := s[3];
        (c % 8) * 262144 + (x % 64) * 4096 + (y % 64) * 64 + z % 64
  }

  method ValidateUtf8Char(str: Bytes, accepts: Bytes -> bool) returns (len: nat)
    requires LikeMbrtowc(accepts)
    ensures len == CharLength(str)
  {
    if str == [] {
      return 0;
    }
    var expected := ExpectedLength(str[0]);
    if expected <= 1 {
      return expected;
    }
    if |str| < expected {
      return 0;
    }
    var temp := str[..expected];
    SameChar(str, expected);
    if !accepts(temp) {
      return 0;
    }
    assert forall i :: 1 <= i < expected ==> Tail(temp[i]);
    var codepoint := CodePoint(temp);
    if expected == 2 {
      TwoBytes(temp);
      if codepoint < 0x80 {
        return 0;
      }
    } else if expected == 3 {
      ThreeBytes(temp);
      if codepoint < 0x800 {
        return 0;
      }
      if 0xD800 <= codepoint <= 0xDFFF {
        return 0;
      }
    } else {
      FourBytes(temp);
      if codepoint < 0x10000 || codepoint > 0x10FFFF {
        return 0;
      }
    }
    return expected;
  }

  // Only the announced number of bytes matters.
  lemma SameChar(str: Bytes, n: nat)
    requires str != [] && n == ExpectedLength(str[0]) && 2 <= n <= |str|
    ensures CharLength(str) == CharLength(str[..n])
    ensures CharLength(str) == n || CharLength(str) == 0
  {
  }

  lemma TwoBytes(s: Bytes)
    requires |s| == 2 && ExpectedLength(s[0]) == 2 && Tail(s[1])
    ensures CharLength(s) == 2 <==> CodePoint(s) >= 0x80
  {
  }

  lemma ThreeBytes(s: Bytes)
    requires |s| == 3 && ExpectedLength(s[0]) == 3 && Tail(s[1]) && Tail(s[2])
    ensures CharLength(s) == 3 <==> CodePoint(s) >= 0x800 && !(0xD800 <= CodePoint(s) <= 0xDFFF)
  {
  }

  lemma FourBytes(s: Bytes)
    requires |s| == 4 && ExpectedLength(s[0]) == 4 && Tail(s[1]) && Tail(s[2]) && Tail(s[3])
    ensures CharLength(s) == 4 <==> 0x10000 <= CodePoint(s) <= 0x10FFFF
  {
  }

  // ---- json_print_escaped ----

  const QUOTE: Byte := 0x22
  const BACKSLASH: Byte := 0x5C

  // The letter after the backslash of a two-character escape, or 0.
  function ShortEscape(c: Byte): Byte {
    if c == QUOTE || c == BACKSLASH then c
    else if c == 0x0A then 0x6E
    else if c == 0x0D then 0x72
    else if c == 0x09 then 0x74
    else if c == 0x08 then 0x62
    else if c == 0x0C then 0x66
    else 0
  }

  // A digit of %04x
  function HexDigit(v: nat): Byte
    requires v < 16
  {
    if v < 10 then 0x30 + v else 0x57 + v
  }

  function UnicodeEscape(c: Byte): (r: Bytes)
    ensures |r| == 6
  {
    var v: int := c;
    [BACKSLASH, 0x75, 0x30, 0x30, HexDigit(v / 16), HexDigit(v % 16)]
  }

  // How many bytes of s the next output token stands for, and the token.
  function Taken(s: Bytes): (n: nat)
    requires s != []
    ensures 1 <= n <= |s|
  {
    if s[0] >= 0x80 && CharLength(s) > 0 then CharLength(s) else 1
  }

  function Token(s: Bytes): (r: Bytes)
    requires s != []
    ensures r != []
  {
    var c := s[0];
    if ShortEscape(c) != 0 then [BACKSLASH, ShortEscape(c)]
    else if 0x20 <= c <= 0x7E then [c]
    else if c >= 0x80 && CharLength(s) > 0 then s[..CharLength(s)]
    else UnicodeEscape(c)
  }

  function Escape(s: Bytes): Bytes
    decreases |s|
  {
    if s == [] then [] else Token(s) + Escape(s[Taken(s)..])
  }

  // The short escapes of section 7 of RFC 8259, by their codes.
  lemma ShortEscapes(s: Bytes)
    requires s != []
    ensures s[0] == 0x22 ==> Token(s) == [0x5C, 0x22]
    ensures s[0] == 0x5C ==> Token(s) == [0x5C, 0x5C]
    ensures s[0] == 0x08 ==> Token(s) == [0x5C, 0x62]
    ensures s[0] == 0x09 ==> Token(s) == [0x5C, 0x74]
    ensures s[0] == 0x0A ==> Token(s) == [0x5C, 0x6E]
    ensures s[0] == 0x0C ==> Token(s) == [0x5C, 0x66]
    ensures s[0] == 0x0D ==> Token(s) == [0x5C, 0x72]
  {
  }

  // Bytes that JSON allows in a string as they are, one by one.
  predicate Plain(c: Byte) {
    0x20 <= c <= 0x7E && c != 0x22 && c != 0x5C
  }

  // What has no short escape: a plain byte and a well-formed character are copied, any
  // other byte becomes its four-digit escape.
  lemma TokenIs(s: Bytes)
    requires s != [] && s[0] !in [0x22, 0x5C, 0x08, 0x09, 0x0A, 0x0C, 0x0D]
    ensures Plain(s[0]) ==> Token(s) == s[..1] && Taken(s) == 1
    ensures s[0] >= 0x80 && CharLength(s) > 0 ==> Token(s) == s[..CharLength(s)] && Taken(s) == CharLength(s)
    ensures !Plain(s[0]) && !(s[0] >= 0x80 && CharLength(s) > 0) ==>
      && Taken(s) == 1 && |Token(s)| == 6 && Token(s)[..4] == [0x5C, 0x75, 0x30, 0x30]
      && IsHex(Token(s)[4]) && IsHex(Token(s)[5]) && HexValue(Token(s)[4]) * 16 + HexValue(Token(s)[5]) == s[0]
  {
    hide CharLength;
    var v: int := s[0];
    assert v == (v / 16) * 16 + v % 16;
  }

  // Plain bytes and bytes of multi-byte characters.
  ghost predicate NoneToEscape(s: Bytes) {
    forall i :: 0 <= i < |s| ==> Plain(s[i]) || s[i] >= 0x80
  }

  lemma NoneIn(s: Bytes, n: nat)
    requires n <= |s|
    ensures NoneToEscape(s) <==> NoneToEscape(s[..n]) && NoneToEscape(s[n..])
  {
    if NoneToEscape(s[..n]) && NoneToEscape(s[n..]) {
      forall i | 0 <= i < |s| ensures Plain(s[i]) || s[i] >= 0x80 {
        if i < n { assert s[i] == s[..n][i]; } else { assert s[i] == s[n..][i - n]; }
      }
    }
  }

  lemma TokenIsSame(s: Bytes)
    requires s != []
    ensures |Token(s)| >= Taken(s)
    ensures var same := CharLength(s) > 0 && NoneToEscape(s[..Taken(s)]);
      && (same ==> Token(s) == s[..Taken(s)] && CharLength(s) == Taken(s))
      && (!same ==> |Token(s)| > Taken(s))
  {
    assert Taken(s) > 1 ==> NoneToEscape(s[..Taken(s)]);
    assert s[..Taken(s)][0] == s[0];
  }

  // Nothing is escaped without need: the output is the input exactly when that is
  // well-formed text of plain bytes and multi-byte characters.
  lemma {:induction false} EscapeIsSame(s: Bytes)
    ensures |Escape(s)| >= |s|
    ensures Escape(s) == s <==> ValidUtf8(s) && NoneToEscape(s)
    decreases |s|
  {
    if s != [] {
      var n := Taken(s);
      EscapeIsSame(s[n..]);
      TokenIsSame(s);
      NoneIn(s, n);
      Rejoin(s, n);
      if Escape(s) == s { assert Escape(s)[n..] == Escape(s[n..]); }
    }
  }

  // One turn of the loop: what it prints and where the scan goes on.
  method PrintOne(buf: Bytes, i: nat, accepts: Bytes -> bool) returns (out: Bytes, next: nat)
    requires LikeMbrtowc(accepts) && i < |buf|
    ensures out == Token(buf[i..]) && next == i + Taken(buf[i..])
  {
    hide LikeMbrtowc, CharLength;
    var c := buf[i];
    next := i + 1;
    if c == QUOTE || c == BACKSLASH {
      out := [BACKSLASH, c];
    } else if c == 0x0A {
      out := [BACKSLASH, 0x6E];
    } else if c == 0x0D {
      out := [BACKSLASH, 0x72];
    } else if c == 0x09 {
      out := [BACKSLASH, 0x74];
    } else if c == 0x08 {
      out := [BACKSLASH, 0x62];
    } else if c == 0x0C {
      out := [BACKSLASH, 0x66];
    } else if 32 <= c <= 126 {
      out := [c];
    } else if c >= 128 {
      var utf8Len := ValidateUtf8Char(buf[i..], accepts);
      if utf8Len > 0 {
        out := buf[i..i + utf8Len];
        assert out == buf[i..][..utf8Len];
        next := i + (utf8Len - 1) + 1;
      } else {
        out := UnicodeEscape(c);
      }
    } else {
      out := UnicodeEscape(c);
    }
  }

  method JsonPrintEscaped(buf: Bytes, accepts: Bytes -> bool) returns (out: Bytes)
    requires LikeMbrtowc(accepts)
    ensures out == Escape(buf)
  {
    hide LikeMbrtowc, Token, Taken;
    out := [];
    var i := 0;
    while i < |buf|
      invariant 0 <= i <= |buf|
      invariant out + Escape(buf[i..]) == Escape(buf)
    {
      var token, next := PrintOne(buf, i, accepts);
      assert buf[i..][Taken(buf[i..])..] == buf[next..];
      assert out + (token + Escape(buf[next..])) == out + token + Escape(buf[next..]);
      out := out + token;
      i := next;
    }
  }

  // ---- Reading the output back ----

  function Letter(e: Byte): Byte {
    if e == 0x6E then 0x0A
    else if e == 0x72 then 0x0D
    else if e == 0x74 then 0x09
    else if e == 0x62 then 0x08
    else if e == 0x66 then 0x0C
    else e
  }

  predicate IsHex(b: Byte) {
    0x30 <= b <= 0x39 || 0x41 <= b <= 0x46 || 0x61 <= b <= 0x66
  }

  function HexValue(b: Byte): (v: nat)
    ensures v < 16
  {
    if 0x30 <= b <= 0x39 then b - 0x30
    else if 0x41 <= b <= 0x46 then b - 0x37
    else if 0x61 <= b <= 0x66 then b - 0x57
    else 0
  }

  // What \u00XX means: to a JSON reader the character U+00XX in UTF-8, to a reader of
  // raw captures the byte XX.
  datatype Reader = JsonReader | ByteReader

  function Meaning(reader: Reader, v: Byte): Bytes {
    var x: int := v;
    if reader.JsonReader? && x >= 0x80 then [0xC0 + x / 64, 0x80 + x % 64] else [v]
  }

  // Escapes and raw bytes mapped back. Only \u00XX can occur in our output.
  function Unescape(reader: Reader, t: Bytes): Bytes
    decreases |t|
  {
    if t == [] then []
    else if t[0] == BACKSLASH && |t| >= 6 && t[1] == 0x75 then
      Meaning(reader, HexValue(t[4]) * 16 + HexValue(t[5])) + Unescape(reader, t[6..])
    else if t[0] == BACKSLASH && |t| >= 2 then [Letter(t[1])] + Unescape(reader, t[2..])
    else [t[0]] + Unescape(reader, t[1..])
  }

  lemma RawByte(reader: Reader, t: Bytes)
    requires t != [] && t[0] != BACKSLASH
    ensures Unescape(reader, t) == [t[0]] + Unescape(reader, t[1..])
  {
  }

  lemma {:induction false} RawBytes(reader: Reader, a: Bytes, t: Bytes)
    requires BACKSLASH !in a
    ensures Unescape(reader, a + t) == a + Unescape(reader, t)
    decreases |a|
  {
    hide Unescape;
    if a == [] {
      assert a + t == t;
    } else {
      assert a[0] in a;
      RawBytes(reader, a[1..], t);
      RawByte(reader, a + t);
      assert (a + t)[1..] == a[1..] + t;
      assert [a[0]] + (a[1..] + Unescape(reader, t)) == a + Unescape(reader, t);
    }
  }

  // What one token reads back as.
  function Read(reader: Reader, s: Bytes): Bytes
    requires s != []
  {
    if s[0] >= 0x80 && CharLength(s) == 0 then Meaning(reader, s[0]) else s[..Taken(s)]
  }

  lemma UnicodeReads(reader: Reader, c: Byte, t: Bytes)
    ensures Unescape(reader, UnicodeEscape(c) + t) == Meaning(reader, c) + Unescape(reader, t)
  {
    var v: int := c;
    assert (UnicodeEscape(c) + t)[6..] == t;
    assert v == (v / 16) * 16 + v % 16;
  }

  lemma ShortReads(reader: Reader, c: Byte, t: Bytes)
    requires ShortEscape(c) != 0
    ensures Unescape(reader, [BACKSLASH, ShortEscape(c)] + t) == [c] + Unescape(reader, t)
  {
    assert ([BACKSLASH, ShortEscape(c)] + t)[2..] == t;
  }

  lemma TokenReads(reader: Reader, s: Bytes, t: Bytes)
    requires s != []
    ensures Unescape(reader, Token(s) + t) == Read(reader, s) + Unescape(reader, t)
  {
    hide Unescape, UnicodeEscape;
    if ShortEscape(s[0]) != 0 {
      ShortReads(reader, s[0], t);
    } else if 0x20 <= s[0] <= 0x7E || (s[0] >= 0x80 && CharLength(s) > 0) {
      assert BACKSLASH !in Token(s);
      RawBytes(reader, Token(s), t);
    } else {
      UnicodeReads(reader, s[0], t);
    }
  }

  // Reading back what stands for s[..Taken(s)], then the rest.
  lemma EscapeReads(reader: Reader, s: Bytes)
    requires s != []
    ensures Unescape(reader, Escape(s)) == Read(reader, s) + Unescape(reader, Escape(s[Taken(s)..]))
    ensures |Read(reader, s)| == Taken(s) + if reader.JsonReader? && CharLength(s) == 0 then 1 else 0
    ensures reader.ByteReader? || CharLength(s) > 0 ==> Read(reader, s) == s[..Taken(s)]
  {
    TokenReads(reader, s, Escape(s[Taken(s)..]));
  }

  lemma Rejoin(s: Bytes, n: nat)
    requires n <= |s|
    ensures s[..n] + s[n..] == s
  {
  }

  // Nothing is lost: a reader that maps each escape and each raw byte back recovers
  // every byte sequence, valid UTF-8 or not.
  lemma {:induction false} ByteRoundTrip(s: Bytes)
    ensures Unescape(ByteReader, Escape(s)) == s
    decreases |s|
  {
    if s != [] {
      EscapeReads(ByteReader, s);
      ByteRoundTrip(s[Taken(s)..]);
      Rejoin(s, Taken(s));
    }
  }

  // ---- The output is a JSON string body in UTF-8 ----

  predicate ValidUtf8(s: Bytes)
    decreases |s|
  {
    s == [] || (CharLength(s) > 0 && ValidUtf8(s[CharLength(s)..]))
  }

  // *char of section 7 of RFC 8259, over UTF-8 text
  predicate JsonBody(t: Bytes)
    decreases |t|
  {
    t == []
    || (t[0] == BACKSLASH && |t| >= 2 && t[1] in [0x22, 0x5C, 0x2F, 0x62, 0x66, 0x6E, 0x72, 0x74] && JsonBody(t[2..]))
    || (t[0] == BACKSLASH && |t| >= 6 && t[1] == 0x75 && IsHex(t[2]) && IsHex(t[3]) && IsHex(t[4]) && IsHex(t[5]) && JsonBody(t[6..]))
    || (t[0] >= 0x20 && t[0] != QUOTE && t[0] != BACKSLASH && CharLength(t) > 0 && JsonBody(t[CharLength(t)..]))
  }

  // A character is recognised whatever follows it.
  lemma CharStays(a: Bytes, t: Bytes)
    requires a != [] && CharLength(a) == |a|
    ensures CharLength(a + t) == |a|
  {
  }

  lemma TakenIsChar(s: Bytes)
    requires CharLength(s) > 0
    ensures CharLength(s[..CharLength(s)]) == CharLength(s)
  {
  }

  lemma TokenIsJson(s: Bytes, t: Bytes)
    requires s != [] && JsonBody(t)
    ensures JsonBody(Token(s) + t)
  {
    var tok := Token(s);
    if ShortEscape(s[0]) != 0 {
      assert (tok + t)[2..] == t;
    } else if 0x20 <= s[0] <= 0x7E {
      assert (tok + t)[1..] == t;
    } else if s[0] >= 0x80 && CharLength(s) > 0 {
      TakenIsChar(s);
      CharStays(tok, t);
      assert (tok + t)[|tok|..] == t;
    } else {
      assert (tok + t)[6..] == t;
    }
  }

  // For every input, the output cannot corrupt the line: it is a JSON string body.
  lemma {:induction false} EscapeIsJson(s: Bytes)
    ensures JsonBody(Escape(s))
    decreases |s|
  {
    if s != [] {
      EscapeIsJson(s[Taken(s)..]);
      TokenIsJson(s, Escape(s[Taken(s)..]));
    }
  }

  lemma {:induction false} JsonIsUtf8(t: Bytes)
    requires JsonBody(t)
    ensures ValidUtf8(t)
    decreases |t|
  {
    if t != [] {
      if t[0] == BACKSLASH && t[1] != 0x75 {
        JsonIsUtf8(t[2..]);
        assert t[1..][1..] == t[2..];
      } else if t[0] == BACKSLASH {
        JsonIsUtf8(t[6..]);
        AsciiPrefix(t, 6);
      } else {
        JsonIsUtf8(t[CharLength(t)..]);
      }
    }
  }

  lemma AsciiHead(t: Bytes)
    requires t != [] && t[0] <= 0x7F
    ensures ValidUtf8(t) <==> ValidUtf8(t[1..])
  {
  }

  lemma {:induction false} AsciiPrefix(t: Bytes, n: nat)
    requires n <= |t| && (forall i :: 0 <= i < n ==> t[i] <= 0x7F) && ValidUtf8(t[n..])
    ensures ValidUtf8(t)
    decreases n
  {
    hide ValidUtf8;
    if n == 0 {
      assert t[0..] == t;
    } else {
      assert t[1..][n - 1..] == t[n..];
      AsciiPrefix(t[1..], n - 1);
      AsciiHead(t);
    }
  }

  // ---- What an ordinary JSON reader sees ----

  // Bytes of s that start no character where the scan stands.
  function Invalid(s: Bytes): nat
    decreases |s|
  {
    if s == [] then 0
    else (if CharLength(s) == 0 then 1 else 0) + Invalid(s[Taken(s)..])
  }

  lemma {:induction false} InvalidIff(s: Bytes)
    ensures Invalid(s) == 0 <==> ValidUtf8(s)
    decreases |s|
  {
    if s != [] {
      InvalidIff(s[Taken(s)..]);
    }
  }

  lemma {:induction false} JsonReading(s: Bytes)
    ensures |Unescape(JsonReader, Escape(s))| == |s| + Invalid(s)
    ensures Invalid(s) == 0 ==> Unescape(JsonReader, Escape(s)) == s
    decreases |s|
  {
    if s != [] {
      EscapeReads(JsonReader, s);
      JsonReading(s[Taken(s)..]);
      Rejoin(s, Taken(s));
    }
  }

  // A standard JSON reader gets back exactly the captured bytes if and only if they
  // were valid UTF-8; each stray byte becomes a two-byte character.
  lemma JsonRoundTripExact(s: Bytes)
    ensures Unescape(JsonReader, Escape(s)) == s <==> ValidUtf8(s)
  {
    JsonReading(s);
    InvalidIff(s);
  }
}
