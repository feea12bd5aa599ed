// json_escape of bpf/jsonl.h: the minimal escape of a C string into a fixed buffer.
module JsonEscape {
  import opened Jsonl

  // The letter after the backslash, or 0 for a byte copied as it is.
  function MinLetter(c: Byte): Byte {
    if c == BACKSLASH || c == QUOTE then c
    else if c == 0x0A then 0x6E
    else if c == 0x09 then 0x74
    else 0
  }

  function MinOne(c: Byte): (r: Bytes)
    ensures 1 <= |r| <= 2
  {
    if MinLetter(c) != 0 then [BACKSLASH, MinLetter(c)] else [c]
  }

  function MinEscape(s: Bytes): Bytes {
    if s == [] then [] else MinOne(s[0]) + MinEscape(s[1..])
  }

  lemma {:induction false} MinSnoc(s: Bytes, c: Byte)
    ensures MinEscape(s + [c]) == MinEscape(s) + MinOne(c)
  {
    if s == [] {
      assert s + [c] == [c] && [c][1..] == [];
      assert MinEscape([c]) == MinOne(c) + [];
    } else {
      MinSnoc(s[1..], c);
      assert (s + [c])[1..] == s[1..] + [c];
    }
  }

  // Where the scan stops that has reached index n: at the end, or where fewer than two
  // bytes and the terminator are left.
  function StopFrom(src: Bytes, size: nat, n: nat): (r: nat)
    requires n <= |src|
    ensures n <= r <= |src|
    ensures forall k :: n <= k < r ==> |MinEscape(src[..k])| + 2 < size
    ensures r < |src| ==> |MinEscape(src[..r])| + 2 >= size
    decreases |src| - n
  {
    if n == |src| || |MinEscape(src[..n])| + 2 >= size then n else StopFrom(src, size, n + 1)
  }

  // How much of src the buffer gets.
  function Fit(src: Bytes, size: nat): (r: nat)
    ensures r <= |src|
    ensures forall k :: 0 <= k < r ==> |MinEscape(src[..k])| + 2 < size
    ensures r < |src| ==> |MinEscape(src[..r])| + 2 >= size
  {
    StopFrom(src, size, 0)
  }

  // Byte by byte: only these four are escaped.
  lemma MinNext(s: Bytes, c: Byte)
    ensures MinEscape(s + [c]) == MinEscape(s) +
      if c == 0x22 || c == 0x5C then [0x5C, c]
      else if c == 0x0A then [0x5C, 0x6E]
      else if c == 0x09 then [0x5C, 0x74]
      else [c]
  {
    MinSnoc(s, c);
  }

  lemma MinEmpty()
    ensures MinEscape([]) == []
  {
  }

  lemma {:induction false} StopIff(src: Bytes, size: nat, n: nat)
    requires n < |src|
    ensures StopFrom(src, size, n) == |src| <==> |MinEscape(src[..|src| - 1])| + 2 < size
    decreases |src| - n
  {
    MinGrows(src, n, |src| - 1);
    if n < |src| - 1 && |MinEscape(src[..n])| + 2 < size {
      StopIff(src, size, n + 1);
    }
  }

  lemma {:induction false} MinGrows(src: Bytes, a: nat, b: nat)
    requires a <= b <= |src|
    ensures |MinEscape(src[..a])| <= |MinEscape(src[..b])|
    decreases b
  {
    if a < b {
      MinGrows(src, a, b - 1);
      MinSnoc(src[..b - 1], src[b - 1]);
      assert src[..b] == src[..b - 1] + [src[b - 1]];
    }
  }

  // The whole string is escaped exactly when what comes before its last character
  // leaves room for two more bytes and the terminator.
  lemma FitsIff(src: Bytes, size: nat)
    ensures Fit(src, size) == |src| <==> src == [] || |MinEscape(src[..|src| - 1])| + 2 < size
  {
    if src != [] { StopIff(src, size, 0); }
  }

  // Reading the escapes back.
  function MinUnescape(t: Bytes): Bytes
    decreases |t|
  {
    if t == [] then []
    else if t[0] == BACKSLASH && |t| >= 2 then [Letter(t[1])] + MinUnescape(t[2..])
    else [t[0]] + MinUnescape(t[1..])
  }

  // The buffer never ends inside an escape: it reads back as a prefix of the source.
  lemma {:induction false} MinRoundTrip(s: Bytes)
    ensures MinUnescape(MinEscape(s)) == s
  {
    if s != [] {
      MinRoundTrip(s[1..]);
      var t := MinOne(s[0]) + MinEscape(s[1..]);
      assert t[|MinOne(s[0])|..] == MinEscape(s[1..]);
    }
  }

  // ---- When the result is JSON ----

  // Well-formed characters, none of them a control character other than newline and tab.
  predicate Clean(s: Bytes)
    decreases |s|
  {
    s == [] || (CharLength(s) > 0 && (s[0] >= 0x20 || s[0] == 0x0A || s[0] == 0x09) && Clean(s[CharLength(s)..]))
  }

  predicate High(s: Bytes, n: nat) {
    n <= |s| && forall i :: 0 <= i < n ==> s[i] >= 0x80
  }

  lemma HighHead(s: Bytes, n: nat)
    ensures High(s, n) <==> n == 0 || (s != [] && s[0] >= 0x80 && High(s[1..], n - 1))
  {
    if n > 0 && s != [] && s[0] >= 0x80 && High(s[1..], n - 1) {
      forall i | 0 <= i < n ensures s[i] >= 0x80 {
        if i > 0 { assert s[i] == s[1..][i - 1]; }
      }
    }
  }

  // Bytes outside ASCII are copied, and only they give bytes outside ASCII.
  lemma {:induction false} HighPrefix(s: Bytes, n: nat)
    ensures High(s, n) <==> High(MinEscape(s), n)
    ensures High(s, n) ==> n <= |s| && MinEscape(s) == s[..n] + MinEscape(s[n..])
    decreases n
  {
    hide High;
    HighHead(s, n);
    HighHead(MinEscape(s), n);
    if n == 0 {
      assert s[..0] == [] && s[0..] == s;
    } else if s != [] {
      var t := MinEscape(s[1..]);
      HighPrefix(s[1..], n - 1);
      assert s[0] >= 0x80 ==> MinEscape(s) == [s[0]] + t && MinEscape(s)[1..] == t;
      if High(s, n) {
        assert s[1..][n - 1..] == s[n..];
        assert [s[0]] + (s[1..][..n - 1] + MinEscape(s[n..])) == s[..n] + MinEscape(s[n..]);
      }
    }
  }

  lemma CharIsHigh(s: Bytes)
    requires s != [] && s[0] >= 0x80
    ensures High(s, CharLength(s))
  {
  }

  // So multi-byte characters, and bytes that start none, stay as they are.
  lemma HeadStays(s: Bytes)
    requires s != [] && s[0] >= 0x80
    ensures CharLength(MinEscape(s)) == CharLength(s)
    ensures CharLength(s) > 0 ==> MinEscape(s)[CharLength(s)..] == MinEscape(s[CharLength(s)..])
    ensures MinEscape(s) != [] && MinEscape(s)[0] == s[0]
  {
    hide MinEscape, CharLength, High;
    var t := MinEscape(s);
    HighPrefix(s, 1);
    HighOne(s);
    if CharLength(s) > 0 {
      CharIsHigh(s);
      SameHead(s, t, CharLength(s));
    } else if CharLength(t) > 0 {
      CharIsHigh(t);
      HighPrefix(s, CharLength(t));
      HighFits(s, CharLength(t));
      TakenIsChar(t);
      assert t[..CharLength(t)] == s[..CharLength(t)];
      CharStays(t[..CharLength(t)], s[CharLength(t)..]);
      Rejoin(s, CharLength(t));
    }
  }

  lemma HighOne(s: Bytes)
    requires s != [] && s[0] >= 0x80
    ensures High(s, 1)
  {
  }

  lemma HighFits(s: Bytes, n: nat)
    requires High(s, n)
    ensures n <= |s|
  {
  }

  lemma SameHead(s: Bytes, t: Bytes, n: nat)
    requires t == MinEscape(s) && High(s, n) && n == CharLength(s) > 0
    ensures CharLength(t) == n && t[n..] == MinEscape(s[n..])
  {
    hide MinEscape, CharLength, High;
    HighPrefix(s, n);
    TakenIsChar(s);
    CharStays(s[..n], MinEscape(s[n..]));
  }

  // Unlike json_print_escaped, the escape of a whole string is JSON only for some: exactly
  // the well-formed ones without control characters other than newline and tab.
  lemma {:induction false} MinEscapeIsJsonIff(s: Bytes)
    ensures JsonBody(MinEscape(s)) <==> Clean(s)
    decreases |s|
  {
    if s != [] {
      if s[0] >= 0x80 {
        HeadStays(s);
        if CharLength(s) > 0 { MinEscapeIsJsonIff(s[CharLength(s)..]); }
      } else {
        MinEscapeIsJsonIff(s[1..]);
        var t := MinOne(s[0]) + MinEscape(s[1..]);
        assert t[|MinOne(s[0])|..] == MinEscape(s[1..]);
      }
    }
  }

  // ---- When the buffer holds JSON ----

  // n bytes into s a character ends.
  predicate Boundary(s: Bytes, n: nat)
    decreases |s|
  {
    n == 0 || (0 < CharLength(s) <= n && Boundary(s[CharLength(s)..], n - CharLength(s)))
  }

  lemma CharCut(s: Bytes, n: nat)
    requires CharLength(s) > 0 && 0 < n <= |s|
    ensures CharLength(s[..n]) == if n < CharLength(s) then 0 else CharLength(s)
  {
  }

  // A part of a clean string is clean when it stops at the end of a character.
  lemma {:induction false} CleanCut(s: Bytes, n: nat)
    requires Clean(s) && n <= |s|
    ensures Clean(s[..n]) <==> Boundary(s, n)
    decreases |s|
  {
    if n > 0 {
      CharCut(s, n);
      var l := CharLength(s);
      if l <= n {
        CleanCut(s[l..], n - l);
        assert s[..n][l..] == s[l..][..n - l];
      }
    }
  }

  lemma {:induction false} EndIsBoundary(s: Bytes)
    requires Clean(s)
    ensures Boundary(s, |s|)
    decreases |s|
  {
    if s != [] { EndIsBoundary(s[CharLength(s)..]); }
  }

  // What Escape leaves in a buffer of that size.
  function Buffered(src: Bytes, size: nat): Bytes {
    MinEscape(src[..Fit(src, size)])
  }

  // The buffer holds JSON if and only if the part of the source that fits is clean.
  lemma BufferIsJsonIff(src: Bytes, size: nat)
    ensures JsonBody(Buffered(src, size)) <==> Clean(src[..Fit(src, size)])
  {
    MinEscapeIsJsonIff(src[..Fit(src, size)]);
  }

  // For a clean source: if and only if the scan stops at the end of a character, as it
  // does when everything fits.
  lemma CleanBufferIsJsonIff(src: Bytes, size: nat)
    requires Clean(src)
    ensures JsonBody(Buffered(src, size)) <==> Boundary(src, Fit(src, size))
    ensures Fit(src, size) == |src| ==> JsonBody(Buffered(src, size))
  {
    BufferIsJsonIff(src, size);
    CleanCut(src, Fit(src, size));
    EndIsBoundary(src);
  }

  // Truncation can cut a character in two.
  const CUT: Bytes := [0x61, 0xC3, 0xA9]

  // It can also leave out what would have broken the line.
  const SAVED: Bytes := [0x61, 0x62, 0x01]

  // Four bytes hold two plain bytes.
  lemma FourBytesHoldTwo(a: Byte, b: Byte, c: Byte)
    requires MinLetter(a) == 0 && MinLetter(b) == 0
    ensures Fit([a, b, c], 4) == 2 && [a, b, c][..2] == [a, b]
  {
    var src := [a, b, c];
    assert src[..0] == [] && src[..1] == [a] && src[..2] == [a, b];
    assert [a][1..] == [] && [a, b][1..] == [b] && [b][1..] == [];
    assert MinEscape([b]) == [b] + MinEscape([]) == [b];
    assert MinEscape([a, b]) == [a] + MinEscape([b]) == [a, b];
    assert MinEscape([a]) == [a] + MinEscape([]) == [a];
    assert StopFrom(src, 4, 2) == 2;
    assert StopFrom(src, 4, 1) == StopFrom(src, 4, 2);
  }

  lemma CutIsClean()
    ensures Clean(CUT) && !Clean([0x61, 0xC3])
  {
    var whole, part: Bytes := [0xC3, 0xA9], [0xC3];
    assert whole[2..] == [] && CharLength(part) == 0;
    assert CUT[1..] == whole && [0x61, 0xC3][1..] == part;
  }

  lemma SavedIsNotClean()
    ensures !Clean(SAVED) && Clean([0x61, 0x62])
  {
    var b, rest: Bytes := [0x62], [0x01];
    assert b[1..] == [] && [0x62, 0x01][1..] == rest;
    assert [0x61, 0x62][1..] == b && SAVED[1..] == [0x62, 0x01];
  }

  // So with four bytes of room a clean source can leave broken JSON, and a source with a
  // control character can leave sound JSON.
  lemma TruncationMatters()
    ensures Clean(CUT) && Fit(CUT, 4) == 2 && !JsonBody(Buffered(CUT, 4))
    ensures !Clean(SAVED) && Fit(SAVED, 4) == 2 && JsonBody(Buffered(SAVED, 4))
  {
    hide Clean, JsonBody, Fit, Buffered;
    FourBytesHoldTwo(0x61, 0xC3, 0xA9);
    FourBytesHoldTwo(0x61, 0x62, 0x01);
    CutIsClean();
    SavedIsNotClean();
    BufferIsJsonIff(CUT, 4);
    BufferIsJsonIff(SAVED, 4);
  }

  // ---- The loop ----

  // dst_size - 2 is unsigned, so a caller must offer at least two bytes.
  method Escape(src: Bytes, dst: array<Byte>) returns (j: nat)
    requires dst.Length >= 2 && 0 !in src
    modifies dst
    ensures j < dst.Length && dst[j] == 0
    ensures dst[..j] == Buffered(src, dst.Length)
    ensures JsonBody(dst[..j]) <==> Clean(src[..Fit(src, dst.Length)])
  {
    hide MinEscape, JsonBody, Clean, CharLength;
    j := 0;
    var i := 0;
    MinEmpty();
    MinEscapeIsJsonIff(src[..Fit(src, dst.Length)]);
    while i < |src| && j < dst.Length - 2
      invariant 0 <= i <= |src| && j <= dst.Length - 1
      invariant dst[..j] == MinEscape(src[..i])
      invariant Fit(src, dst.Length) == StopFrom(src, dst.Length, i)
    {
      ghost var done := dst[..j];
      MinSnoc(src[..i], src[i]);
      assert src[..i + 1] == src[..i] + [src[i]];
      var l := MinLetter(src[i]);
      if l != 0 {
        dst[j] := BACKSLASH;
        dst[j + 1] := l;
        j := j + 2;
        assert dst[..j] == done + [BACKSLASH, l];
      } else {
        dst[j] := src[i];
        j := j + 1;
        assert dst[..j] == done + [src[i]];
      }
      i := i + 1;
    }
    dst[j] := 0;
  }
}
