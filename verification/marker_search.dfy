// Pattern search in binaries: codex_find_pattern, codex_find_rustls_offsets and
// binary_has_rustls_markers of bpf/codex_offsets.h, and binary_embeds_ssl of
// agentsight-capture/src/binary_resolver.rs. A file is given by the chunks that
// successive error-free reads return.
module MarkerSearch {

  type Bytes = seq<int>

  // ---- What is searched for ----

  predicate OccursAt(data: Bytes, p: Bytes, i: nat) {
    i + |p| <= |data| && data[i..i + |p|] == p
  }

  ghost predicate Occurs(data: Bytes, p: Bytes) {
    exists i: nat :: OccursAt(data, p, i)
  }

  lemma OccursByByte(data: Bytes, p: Bytes, i: nat)
    ensures OccursAt(data, p, i) <==> i + |p| <= |data| && forall k :: 0 <= k < |p| ==> data[i + k] == p[k]
  {
    if i + |p| <= |data| {
      var window := data[i..i + |p|];
      assert forall k :: 0 <= k < |p| ==> window[k] == data[i + k];
    }
  }

  ghost predicate AnyOccurs(data: Bytes, needles: seq<Bytes>) {
    exists k :: 0 <= k < |needles| && Occurs(data, needles[k])
  }

  function Concat(chunks: seq<Bytes>): Bytes {
    if chunks == [] then [] else Concat(chunks[..|chunks| - 1]) + chunks[|chunks| - 1]
  }

  // The last k bytes, or all of them.
  function Last(data: Bytes, k: nat): (r: Bytes)
    ensures |r| == if |data| < k then |data| else k
  {
    if |data| < k then data else data[|data| - k..]
  }

  // ---- codex_find_pattern ----

  // memchr over n bytes from index from: the first index holding b, or -1.
  method Memchr(data: Bytes, from: nat, n: nat, b: int) returns (r: int)
    requires from + n <= |data|
    ensures r == -1 || (from <= r < from + n && data[r] == b)
    ensures forall i :: from <= i < (if r == -1 then from + n else r) ==> data[i] != b
  {
    for i := from to from + n
      invariant forall k :: from <= k < i ==> data[k] != b
    {
      if data[i] == b {
        return i;
      }
    }
    return -1;
  }

  // The first occurrence, or -1.
  method FindPattern(data: Bytes, pattern: Bytes) returns (r: int)
    requires pattern != []
    ensures r == -1 <==> !Occurs(data, pattern)
    ensures r != -1 ==> r >= 0 && OccursAt(data, pattern, r) && forall i: nat :: i < r ==> !OccursAt(data, pattern, i)
  {
    var offset := 0;
    while offset + |pattern| <= |data|
      invariant forall i: nat :: i < offset ==> !OccursAt(data, pattern, i)
      decreases |data| - offset
    {
      var found := Memchr(data, offset, |data| - offset - |pattern| + 1, pattern[0]);
      forall i: nat | offset <= i < |data| && OccursAt(data, pattern, i)
        ensures found != -1 && found <= i
      {
        assert data[i] == data[i..i + |pattern|][0];
      }
      if found == -1 {
        break;
      }
      offset := found;
      if data[offset..offset + |pattern|] == pattern {
        assert OccursAt(data, pattern, offset);
        return offset;
      }
      offset := offset + 1;
    }
    return -1;
  }

  // ---- Chunked search ----

  lemma OccursInPrefix(a: Bytes, b: Bytes, needle: Bytes, i: nat)
    requires i + |needle| <= |a|
    ensures OccursAt(a + b, needle, i) <==> OccursAt(a, needle, i)
  {
    assert (a + b)[i..i + |needle|] == a[i..i + |needle|];
  }

  lemma OccursInSuffix(all: Bytes, cut: nat, needle: Bytes, i: nat)
    requires cut <= |all|
    ensures OccursAt(all[cut..], needle, i) <==> OccursAt(all, needle, cut + i)
  {
    if cut + i + |needle| <= |all| {
      assert all[cut..][i..i + |needle|] == all[cut + i..cut + i + |needle|];
    }
  }

  // A match in prefix + chunk lies in the prefix, or within the chunk and the bytes
  // carried over, provided the carry is at most one byte shorter than the needle.
  lemma CarryMissesNothing(before: Bytes, chunk: Bytes, k: nat, needle: Bytes)
    requires 1 <= |needle| <= k + 1
    ensures Occurs(before + chunk, needle) <==> Occurs(before, needle) || Occurs(Last(before, k) + chunk, needle)
  {
    hide OccursAt;
    var all, cut := before + chunk, |before| - |Last(before, k)|;
    assert Last(before, k) + chunk == all[cut..];
    if i: nat :| OccursAt(all, needle, i) {
      if i + |needle| <= |before| {
        OccursInPrefix(before, chunk, needle, i);
      } else {
        OccursInSuffix(all, cut, needle, i - cut);
      }
    }
    if i: nat :| OccursAt(before, needle, i) {
      OccursFits(before, needle, i);
      OccursInPrefix(before, chunk, needle, i);
    }
    if i: nat :| OccursAt(all[cut..], needle, i) {
      OccursInSuffix(all, cut, needle, i);
    }
  }

  lemma OccursFits(data: Bytes, p: Bytes, i: nat)
    requires OccursAt(data, p, i)
    ensures i + |p| <= |data|
  {
  }

  lemma CarryMissesNone(before: Bytes, chunk: Bytes, k: nat, needles: seq<Bytes>)
    requires forall n :: 0 <= n < |needles| ==> 1 <= |needles[n]| <= k + 1
    ensures AnyOccurs(before + chunk, needles) <==> AnyOccurs(before, needles) || AnyOccurs(Last(before, k) + chunk, needles)
  {
    forall n | 0 <= n < |needles| {
      CarryMissesNothing(before, chunk, k, needles[n]);
    }
  }

  lemma CarryMoves(before: Bytes, chunk: Bytes, k: nat)
    ensures Last(Last(before, k) + chunk, k) == Last(before + chunk, k)
  {
  }

  lemma {:induction false} ConcatSplit(chunks: seq<Bytes>, i: nat)
    requires i <= |chunks|
    ensures exists rest :: Concat(chunks) == Concat(chunks[..i]) + rest
  {
    if i == |chunks| {
      assert chunks[..i] == chunks;
      assert Concat(chunks) == Concat(chunks[..i]) + [];
    } else {
      var front := chunks[..|chunks| - 1];
      ConcatSplit(front, i);
      assert front[..i] == chunks[..i];
      var rest :| Concat(front) == Concat(chunks[..i]) + rest;
      assert Concat(chunks) == Concat(chunks[..i]) + (rest + chunks[|chunks| - 1]);
    }
  }

  // What was found in a prefix of the file stays found.
  lemma FoundStays(chunks: seq<Bytes>, i: nat, needles: seq<Bytes>)
    requires i <= |chunks| && AnyOccurs(Concat(chunks[..i]), needles)
    ensures AnyOccurs(Concat(chunks), needles)
  {
    ConcatSplit(chunks, i);
    var before := Concat(chunks[..i]);
    var rest :| Concat(chunks) == before + rest;
    var n :| 0 <= n < |needles| && Occurs(before, needles[n]);
    var at: nat :| OccursAt(before, needles[n], at);
    assert OccursAt(before + rest, needles[n], at);
    assert Occurs(Concat(chunks), needles[n]);
  }

  lemma ConcatNext(chunks: seq<Bytes>, i: nat)
    requires i < |chunks|
    ensures Concat(chunks[..i + 1]) == Concat(chunks[..i]) + chunks[i]
  {
    assert chunks[..i + 1][..i] == chunks[..i];
  }

  // ---- binary_has_rustls_markers ----

  const READ_SIZE := 8192
  const CARRY := 32

  // codex_buf_contains, for several needles
  method BufContains(buf: array<int>, len: nat, needles: seq<Bytes>) returns (r: bool)
    requires len <= buf.Length && forall n :: 0 <= n < |needles| ==> needles[n] != []
    ensures r <==> AnyOccurs(buf[..len], needles)
  {
    for n := 0 to |needles|
      invariant forall k :: 0 <= k < n ==> !Occurs(buf[..len], needles[k])
    {
      var at := FindPattern(buf[..len], needles[n]);
      if at != -1 {
        return true;
      }
    }
    return false;
  }

  // read into buf at offset carry
  method Read(buf: array<int>, carry: nat, chunk: Bytes)
    requires carry + |chunk| <= buf.Length
    modifies buf
    ensures buf[..carry + |chunk|] == old(buf[..carry]) + chunk
  {
    for i := 0 to |chunk|
      invariant buf[..carry] == old(buf[..carry])
      invariant buf[carry..carry + i] == chunk[..i]
    {
      buf[carry + i] := chunk[i];
    }
  }

  // memmove(buf, buf + from, n) for n bytes to the front
  method MoveDown(buf: array<int>, from: nat, n: nat)
    requires from + n <= buf.Length
    modifies buf
    ensures buf[..n] == old(buf[from..from + n])
  {
    for i := 0 to n
      invariant buf[..i] == old(buf[from..from + i])
      invariant buf[from + i..from + n] == old(buf[from + i..from + n])
    {
      var b := buf[from + i];
      assert b == old(buf[from..from + n])[i];
      buf[i] := b;
    }
  }

  // One turn of the loop: buf[..carry] holds the tail of what was read before, and is
  // left with the tail of it all.
  method ScanChunk(buf: array<int>, carry: nat, chunk: Bytes, agents: seq<Bytes>, rustls: Bytes, ghost before: Bytes)
      returns (carry': nat, agentHere: bool, rustlsHere: bool)
    requires buf.Length == READ_SIZE + CARRY && |chunk| <= READ_SIZE
    requires carry <= CARRY && buf[..carry] == Last(before, CARRY)
    requires forall n :: 0 <= n < |agents| ==> 1 <= |agents[n]| <= CARRY + 1
    requires 1 <= |rustls| <= CARRY + 1
    modifies buf
    ensures carry' <= CARRY && buf[..carry'] == Last(before + chunk, CARRY)
    ensures AnyOccurs(before + chunk, agents) <==> AnyOccurs(before, agents) || agentHere
    ensures AnyOccurs(before + chunk, [rustls]) <==> AnyOccurs(before, [rustls]) || rustlsHere
  {
    hide AnyOccurs, Last;
    Read(buf, carry, chunk);
    var len := carry + |chunk|;
    agentHere := BufContains(buf, len, agents);
    rustlsHere := BufContains(buf, len, [rustls]);
    CarryMissesNone(before, chunk, CARRY, agents);
    CarryMissesNone(before, chunk, CARRY, [rustls]);
    ghost var window := buf[..len];
    carry' := if len < CARRY then len else CARRY;
    MoveDown(buf, len - carry', carry');
    CarryMoves(before, chunk, CARRY);
    LastOf(window, CARRY);
  }

  // The agent markers are one or two strings. Each marker fits the carry.
  method BinaryHasRustlsMarkers(chunks: seq<Bytes>, agents: seq<Bytes>, rustls: Bytes) returns (r: bool)
    requires forall i :: 0 <= i < |chunks| ==> 1 <= |chunks[i]| <= 8192
    requires forall n :: 0 <= n < |agents| ==> 1 <= |agents[n]| <= 33
    requires 1 <= |rustls| <= 33
    ensures r <==> AnyOccurs(Concat(chunks), agents) && AnyOccurs(Concat(chunks), [rustls])
  {
    hide AnyOccurs, Last, Concat;
    var buf := new int[READ_SIZE + CARRY](_ => 0);
    var hasAgent, hasRustls := false, false;
    var carry: nat := 0;
    NothingInEmpty(agents);
    NothingInEmpty([rustls]);
    assert chunks[..0] == [];
    for i := 0 to |chunks|
      invariant carry <= CARRY && buf[..carry] == Last(Concat(chunks[..i]), CARRY)
      invariant hasAgent <==> AnyOccurs(Concat(chunks[..i]), agents)
      invariant hasRustls <==> AnyOccurs(Concat(chunks[..i]), [rustls])
      invariant !(hasAgent && hasRustls)
    {
      ghost var before := Concat(chunks[..i]);
      ConcatNext(chunks, i);
      var agentHere, rustlsHere;
      carry, agentHere, rustlsHere := ScanChunk(buf, carry, chunks[i], agents, rustls, before);
      hasAgent := hasAgent || agentHere;
      hasRustls := hasRustls || rustlsHere;
      if hasAgent && hasRustls {
        FoundStays(chunks, i + 1, agents);
        FoundStays(chunks, i + 1, [rustls]);
        return true;
      }
    }
    assert chunks[..|chunks|] == chunks;
    return false;
  }

  lemma NothingInEmpty(needles: seq<Bytes>)
    requires forall n :: 0 <= n < |needles| ==> needles[n] != []
    ensures !AnyOccurs(Concat([]), needles) && forall k :: Last(Concat([]), k) == []
  {
  }

  lemma LastOf(window: Bytes, k: nat)
    ensures Last(window, k) == window[if |window| <= k then 0 else |window| - k..]
  {
  }

  // ---- binary_embeds_ssl ----

  // needles.iter().map(len).max().unwrap_or(1) - 1, saturating
  method KeepLength(needles: seq<Bytes>) returns (keep: nat)
    ensures forall n :: 0 <= n < |needles| ==> |needles[n]| <= keep + 1
    ensures needles == [] ==> keep == 0
    ensures needles != [] ==> keep == 0 || exists n :: 0 <= n < |needles| && |needles[n]| == keep + 1
  {
    var max := 0;
    for n := 0 to |needles|
      invariant forall k :: 0 <= k < n ==> |needles[k]| <= max
      invariant max == 0 || exists k :: 0 <= k < n && |needles[k]| == max
    {
      if |needles[n]| > max {
        max := |needles[n]|;
      }
    }
    keep := if max == 0 then 0 else max - 1;
  }

  method WindowsContain(carry: Bytes, needles: seq<Bytes>) returns (r: bool)
    requires forall n :: 0 <= n < |needles| ==> needles[n] != []
    ensures r <==> AnyOccurs(carry, needles)
  {
    for n := 0 to |needles|
      invariant forall k :: 0 <= k < n ==> !Occurs(carry, needles[k])
    {
      var i := 0;
      while i + |needles[n]| <= |carry|
        invariant forall k: nat :: k < i ==> !OccursAt(carry, needles[n], k)
      {
        if carry[i..i + |needles[n]|] == needles[n] {
          assert OccursAt(carry, needles[n], i);
          return true;
        }
        i := i + 1;
      }
    }
    return false;
  }

  method BinaryEmbedsSsl(chunks: seq<Bytes>, needles: seq<Bytes>) returns (r: bool)
    requires forall n :: 0 <= n < |needles| ==> needles[n] != []
    ensures r <==> AnyOccurs(Concat(chunks), needles)
  {
    hide AnyOccurs, Last, Concat;
    var carry: Bytes := [];
    var keep := KeepLength(needles);
    NothingInEmpty(needles);
    assert chunks[..0] == [];
    for i := 0 to |chunks|
      invariant carry == Last(Concat(chunks[..i]), keep)
      invariant !AnyOccurs(Concat(chunks[..i]), needles)
    {
      ghost var before := Concat(chunks[..i]);
      ConcatNext(chunks, i);
      carry := carry + chunks[i];
      CarryMissesNone(before, chunks[i], keep, needles);
      var here := WindowsContain(carry, needles);
      if here {
        FoundStays(chunks, i + 1, needles);
        return true;
      }
      CarryMoves(before, chunks[i], keep);
      LastOf(carry, keep);
      if |carry| > keep {
        carry := carry[|carry| - keep..];
      }
    }
    assert chunks[..|chunks|] == chunks;
    return false;
  }

  // ---- codex_find_rustls_offsets ----

  const MAX_OFFSETS := 64

  datatype Offset = Offset(at: nat, vectored: bool)

  // The byte signatures; only their lengths and positions matter here.
  datatype Signatures = Signatures(write: Bytes, writev: Bytes, iov: Bytes, copy: Bytes)

  const IOV_AT := 19
  const COPY_AT := 28

  predicate Confirmed(data: Bytes, sig: Signatures, at: nat) {
    at + COPY_AT + |sig.copy| <= |data| && OccursAt(data, sig.iov, at + IOV_AT) && OccursAt(data, sig.copy, at + COPY_AT)
  }

  function Prologue(sig: Signatures, vectored: bool): Bytes {
    if vectored then sig.writev else sig.write
  }

  predicate IsHit(data: Bytes, sig: Signatures, vectored: bool, at: nat) {
    OccursAt(data, Prologue(sig, vectored), at) && (vectored ==> Confirmed(data, sig, at))
  }

  // A vectored hit is confirmed at two places behind its prologue.
  lemma HitIs(data: Bytes, sig: Signatures, at: nat)
    ensures IsHit(data, sig, false, at) <==> OccursAt(data, sig.write, at)
    ensures IsHit(data, sig, true, at) <==>
      OccursAt(data, sig.writev, at) && OccursAt(data, sig.iov, at + 19) && OccursAt(data, sig.copy, at + 28)
  {
    hide OccursAt;
    if OccursAt(data, sig.copy, at + 28) { OccursFits(data, sig.copy, at + 28); }
  }

  // All hits from index i on, in ascending order.
  function Hits(data: Bytes, sig: Signatures, vectored: bool, i: nat): seq<Offset>
    decreases |data| - i
  {
    if i >= |data| then []
    else (if IsHit(data, sig, vectored, i) then [Offset(i, vectored)] else []) + Hits(data, sig, vectored, i + 1)
  }

  function Capped(all: seq<Offset>): seq<Offset> {
    if |all| <= MAX_OFFSETS then all else all[..MAX_OFFSETS]
  }

  // The search may jump over places where the prologue does not occur.
  lemma {:induction false} SkipTo(data: Bytes, sig: Signatures, vectored: bool, i: nat, j: nat)
    requires i <= j <= |data|
    requires forall k: nat :: k < j - i ==> !OccursAt(data[i..], Prologue(sig, vectored), k)
    ensures Hits(data, sig, vectored, i) == Hits(data, sig, vectored, j)
    decreases j - i
  {
    if i < j {
      var p, rest := Prologue(sig, vectored), data[i + 1..];
      OccursInSuffix(data, i, p, 0);
      forall k: nat | k < j - i - 1 ensures !OccursAt(rest, p, k) {
        OccursInSuffix(data, i + 1, p, k);
        OccursInSuffix(data, i, p, k + 1);
      }
      SkipTo(data, sig, vectored, i + 1, j);
    }
  }

  lemma {:induction false} NoRoom(data: Bytes, sig: Signatures, vectored: bool, i: nat)
    requires i + |Prologue(sig, vectored)| > |data|
    ensures Hits(data, sig, vectored, i) == []
    decreases |data| - i
  {
    if i < |data| { NoRoom(data, sig, vectored, i + 1); }
  }

  class Offsets {
    const entries: array<Offset>
    var count: nat

    ghost predicate Valid()
      reads this
    {
      entries.Length == MAX_OFFSETS && count <= MAX_OFFSETS
    }

    constructor ()
      ensures Valid() && count == 0 && fresh(entries)
    {
      entries := new Offset[MAX_OFFSETS](_ => Offset(0, false));
      count := 0;
    }

    // codex_add_rustls_offset
    method Add(o: Offset) returns (ok: bool)
      requires Valid()
      modifies this, entries
      ensures Valid() && (ok <==> old(count) < MAX_OFFSETS)
      ensures entries[..count] == if ok then old(entries[..count]) + [o] else old(entries[..count])
    {
      if count == MAX_OFFSETS {
        return false;
      }
      entries[count] := o;
      count := count + 1;
      return true;
    }

    // One of the two loops of codex_find_rustls_offsets.
    method Collect(data: Bytes, sig: Signatures, vectored: bool)
      requires Valid() && Prologue(sig, vectored) != []
      modifies this, entries
      ensures Valid() && entries[..count] == Capped(old(entries[..count]) + Hits(data, sig, vectored, 0))
    {
      hide OccursAt, Hits, Confirmed, IsHit, Prologue;
      var pattern := Prologue(sig, vectored);
      ghost var all := entries[..count] + Hits(data, sig, vectored, 0);
      var search := 0;
      while search + |pattern| <= |data|
        invariant Valid() && search <= |data|
        invariant entries[..count] + Hits(data, sig, vectored, search) == all
        decreases |data| - search
      {
        var relative := FindPattern(data[search..], pattern);
        if relative == -1 {
          SkipTo(data, sig, vectored, search, |data|);
          search := |data|;
          break;
        }
        var offset := search + relative;
        OccursFits(data[search..], pattern, relative);
        OccursInSuffix(data, search, pattern, relative);
        SkipTo(data, sig, vectored, search, offset);
        HitsAt(data, sig, vectored, offset);
        if !vectored || ConfirmedAt(data, sig, offset) {
          ghost var done := entries[..count];
          var ok := Add(Offset(offset, vectored));
          if !ok {
            assert all[..MAX_OFFSETS] == entries[..count];
            return;
          }
          assert done + ([Offset(offset, vectored)] + Hits(data, sig, vectored, offset + 1)) == all;
        }
        search := offset + 1;
      }
      NoRoom(data, sig, vectored, search);
      assert entries[..count] + [] == all;
    }
  }

  // The bounds check and the two memcmp calls.
  function ConfirmedAt(data: Bytes, sig: Signatures, at: nat): (r: bool)
    ensures r <==> Confirmed(data, sig, at)
  {
    && at + COPY_AT + |sig.copy| <= |data|
    && at + IOV_AT + |sig.iov| <= |data|
    && data[at + IOV_AT..at + IOV_AT + |sig.iov|] == sig.iov
    && data[at + COPY_AT..at + COPY_AT + |sig.copy|] == sig.copy
  }

  lemma HitsAt(data: Bytes, sig: Signatures, vectored: bool, at: nat)
    requires at < |data| && OccursAt(data, Prologue(sig, vectored), at)
    ensures Hits(data, sig, vectored, at) ==
      (if vectored ==> Confirmed(data, sig, at) then [Offset(at, vectored)] else []) + Hits(data, sig, vectored, at + 1)
  {
  }

  // codex_find_rustls_offsets, on the mapped file: the first 64 of the confirmed
  // write_vectored hits followed by the write hits, each in ascending order.
  method FindRustlsOffsets(data: Bytes, sig: Signatures, out: Offsets) returns (found: bool)
    requires out.Valid() && sig.write != [] && sig.writev != []
    modifies out, out.entries
    ensures out.Valid()
    ensures var all := Hits(data, sig, true, 0) + Hits(data, sig, false, 0);
      out.entries[..out.count] == all[..if |all| <= 64 then |all| else 64]
    ensures found <==> exists v, at: nat :: IsHit(data, sig, v, at)
  {
    hide Hits, IsHit;
    out.count := 0;
    out.Collect(data, sig, true);
    out.Collect(data, sig, false);
    found := out.count > 0;
    ghost var v, w := Hits(data, sig, true, 0), Hits(data, sig, false, 0);
    assert out.entries[..0] + v == v;
    assert Capped(Capped(v) + w) == Capped(v + w);
    HitsExist(data, sig, true);
    HitsExist(data, sig, false);
  }

  lemma {:induction false} HitsFrom(data: Bytes, sig: Signatures, vectored: bool, i: nat)
    requires Prologue(sig, vectored) != []
    ensures Hits(data, sig, vectored, i) != [] <==> exists at: nat :: at >= i && IsHit(data, sig, vectored, at)
    decreases |data| - i
  {
    if i < |data| {
      HitsFrom(data, sig, vectored, i + 1);
    }
  }

  lemma HitsExist(data: Bytes, sig: Signatures, vectored: bool)
    requires Prologue(sig, vectored) != []
    ensures Hits(data, sig, vectored, 0) != [] <==> exists at: nat :: IsHit(data, sig, vectored, at)
  {
    HitsFrom(data, sig, vectored, 0);
  }

  lemma HitFits(data: Bytes, sig: Signatures, vectored: bool, at: nat)
    requires Prologue(sig, vectored) != [] && IsHit(data, sig, vectored, at)
    ensures at < |data|
  {
  }

  // hs holds exactly the hits from i on, once each, in ascending order.
  ghost predicate ListsHits(hs: seq<Offset>, data: Bytes, sig: Signatures, vectored: bool, i: nat) {
    && (forall k :: 0 <= k < |hs| ==> hs[k].vectored == vectored && hs[k].at >= i)
    && (forall k, l :: 0 <= k < l < |hs| ==> hs[k].at < hs[l].at)
    && (forall at: nat :: Offset(at, vectored) in hs <==> at >= i && IsHit(data, sig, vectored, at))
  }

  lemma ListsMore(hs: seq<Offset>, data: Bytes, sig: Signatures, vectored: bool, i: nat)
    requires ListsHits(hs, data, sig, vectored, i + 1)
    ensures ListsHits((if IsHit(data, sig, vectored, i) then [Offset(i, vectored)] else []) + hs, data, sig, vectored, i)
  {
    hide IsHit;
    var here := if IsHit(data, sig, vectored, i) then [Offset(i, vectored)] else [];
    var all := here + hs;
    forall k, l | 0 <= k < l < |all| ensures all[k].at < all[l].at {
      assert all[l] == hs[l - |here|];
    }
    forall at: nat ensures Offset(at, vectored) in all <==> Offset(at, vectored) in here || Offset(at, vectored) in hs {}
  }

  // Hits lists exactly the hits, once each, in ascending order.
  lemma {:induction false} HitsExact(data: Bytes, sig: Signatures, vectored: bool, i: nat)
    requires Prologue(sig, vectored) != []
    ensures ListsHits(Hits(data, sig, vectored, i), data, sig, vectored, i)
    decreases |data| - i
  {
    hide ListsHits, Prologue, IsHit;
    if i < |data| {
      HitsExact(data, sig, vectored, i + 1);
      ListsMore(Hits(data, sig, vectored, i + 1), data, sig, vectored, i);
    } else {
      NoHits(data, sig, vectored, i);
    }
  }

  lemma NoHits(data: Bytes, sig: Signatures, vectored: bool, i: nat)
    requires Prologue(sig, vectored) != [] && i >= |data|
    ensures ListsHits([], data, sig, vectored, i)
  {
    hide IsHit, Prologue;
    forall at: nat | IsHit(data, sig, vectored, at) ensures at < |data| { HitFits(data, sig, vectored, at); }
  }
}
