// The rustls probes of bpf/sslsniff.bpf.c that gather plaintext from several user
// buffers into one event: copy_rustls_iovec, probe_rustls_buffer_plaintext and
// probe_rustls_write_vectored.
module RustlsCopy {

  const MAX_BUF_SIZE := 262144
  const GROK_MAX_CAPTURE_SIZE := 65536
  const RUSTLS_COPY_CHUNK_SIZE := 16384
  const MAX_RUSTLS_CHUNKS_PER_IOV := 8
  const MAX_RUSTLS_IOVECS := 2
  const MAX_GROK_IOVECS := 8

  type Bytes = seq<int>

  // One element of the caller's vector. listed says whether its descriptor can be read,
  // mapped whether its bytes can.
  datatype Iovec = Iovec(bytes: Bytes, listed: bool, mapped: bool)

  // OutboundChunks as read from user memory.
  datatype Outbound = Single(chunk: Iovec) | Multiple(start: nat, end: nat, chunks: seq<Iovec>)

  // What is submitted; the data lies in buf[..bufSize].
  datatype Event = NoEvent | Event(len: nat, bufSize: nat)

  function Min(a: nat, b: nat): nat {
    if a < b then a else b
  }

  function Take(s: Bytes, n: nat): (r: Bytes)
    ensures |r| == Min(|s|, n)
  {
    s[..Min(|s|, n)]
  }

  // The bytes of the chunks that could be read, one after the other.
  function Gathered(cs: seq<Iovec>): Bytes {
    if cs == [] then []
    else Gathered(cs[..|cs| - 1]) + if cs[|cs| - 1].mapped then cs[|cs| - 1].bytes else []
  }

  function TotalLength(cs: seq<Iovec>): nat {
    if cs == [] then 0 else TotalLength(cs[..|cs| - 1]) + |cs[|cs| - 1].bytes|
  }

  // bpf_probe_read_user of n bytes to buf + at; a failing read clears the destination.
  method ReadUser(buf: array<int>, at: nat, n: nat, src: Iovec, from: nat) returns (failed: bool)
    requires at + n <= buf.Length && from + n <= |src.bytes|
    modifies buf
    ensures failed <==> !src.mapped
    ensures buf[..at + n] == old(buf[..at]) + if failed then seq(n, _ => 0) else src.bytes[from..from + n]
  {
    ghost var got := if src.mapped then src.bytes[from..from + n] else seq(n, _ => 0);
    for i := 0 to n
      invariant buf[..at] == old(buf[..at])
      invariant buf[at..at + i] == got[..i]
    {
      buf[at + i] := if src.mapped then src.bytes[from + i] else 0;
    }
    return !src.mapped;
  }

  lemma TakeNone()
    ensures Take([], GROK_MAX_CAPTURE_SIZE) == []
  {
  }

  // copy_rustls_iovec: every write lies inside the capture area although the offset is
  // masked and the size clamped, and the bytes follow the ones already there.
  method CopyRustlsIovec(buf: array<int>, iovec: Iovec, copied: nat) returns (r: nat)
    requires buf.Length == 262144 && copied <= 65536
    modifies buf
    ensures copied <= r <= 65536
    ensures buf[..r] == Take(old(buf[..copied]) + if iovec.mapped then iovec.bytes else [], 65536)
  {
    if |iovec.bytes| == 0 || copied >= GROK_MAX_CAPTURE_SIZE {
      return copied;
    }
    var capacity := GROK_MAX_CAPTURE_SIZE - copied;
    var destination := copied % GROK_MAX_CAPTURE_SIZE;
    var copySize := |iovec.bytes|;
    if copySize > GROK_MAX_CAPTURE_SIZE {
      copySize := GROK_MAX_CAPTURE_SIZE;
    }
    if copySize > capacity {
      copySize := capacity;
    }
    if copySize == 0 {
      return copied;
    }
    var failed := ReadUser(buf, destination, copySize, iovec, 0);
    if failed {
      assert buf[..copied] == buf[..destination + copySize][..copied];
      return copied;
    }
    return copied + copySize;
  }

  // How many chunks the loop looks at: at most eight, up to the first whose descriptor
  // cannot be read.
  function Inspected(cs: seq<Iovec>): (n: nat)
    ensures n <= |cs| && n <= 8
    ensures forall i :: 0 <= i < n ==> cs[i].listed
    ensures n < |cs| && n < 8 ==> !cs[n].listed
  {
    InspectedFrom(cs, 0)
  }

  function InspectedFrom(cs: seq<Iovec>, i: nat): (n: nat)
    requires i <= |cs| && i <= MAX_GROK_IOVECS
    requires forall k :: 0 <= k < i ==> cs[k].listed
    ensures i <= n <= |cs| && n <= MAX_GROK_IOVECS
    ensures forall k :: 0 <= k < n ==> cs[k].listed
    ensures n < |cs| && n < MAX_GROK_IOVECS ==> !cs[n].listed
    decreases |cs| - i
  {
    if i == |cs| || i == MAX_GROK_IOVECS || !cs[i].listed then i else InspectedFrom(cs, i + 1)
  }

  // The body of the gathering loop of probe_rustls_buffer_plaintext, unrolled there.
  method GatherChunks(buf: array<int>, cs: seq<Iovec>, total: nat) returns (copied: nat)
    requires buf.Length == MAX_BUF_SIZE
    modifies buf
    ensures var n := Inspected(cs); var seen := cs[..n];
      if TotalLength(seen) > total then copied == 0
      else copied == Min(|Gathered(seen)|, 65536) && buf[..copied] == Take(Gathered(seen), 65536)
  {
    hide TotalLength, Gathered, Take;
    copied := 0;
    var inspectedTotal := 0;
    var i := 0;
    NoChunks();
    TakeNone();
    assert cs[..0] == [];
    while i < MAX_GROK_IOVECS
      invariant 0 <= i <= MAX_GROK_IOVECS && i <= |cs| && forall k :: 0 <= k < i ==> cs[k].listed
      invariant Inspected(cs) == InspectedFrom(cs, i)
      invariant inspectedTotal == TotalLength(cs[..i]) <= total
      invariant copied <= GROK_MAX_CAPTURE_SIZE && buf[..copied] == Take(Gathered(cs[..i]), GROK_MAX_CAPTURE_SIZE)
    {
      if i >= |cs| || !cs[i].listed {
        break;
      }
      NextChunk(cs, i);
      if inspectedTotal > total || |cs[i].bytes| > total - inspectedTotal {
        LengthGrows(cs[..Inspected(cs)], i + 1);
        assert cs[..Inspected(cs)][..i + 1] == cs[..i + 1];
        return 0;
      }
      inspectedTotal := inspectedTotal + |cs[i].bytes|;
      var more := if cs[i].mapped then cs[i].bytes else [];
      TakeMore(Gathered(cs[..i]), more, GROK_MAX_CAPTURE_SIZE);
      copied := CopyRustlsIovec(buf, cs[i], copied);
      i := i + 1;
    }
  }

  lemma NextChunk(cs: seq<Iovec>, i: nat)
    requires i < |cs|
    ensures TotalLength(cs[..i + 1]) == TotalLength(cs[..i]) + |cs[i].bytes|
    ensures Gathered(cs[..i + 1]) == Gathered(cs[..i]) + if cs[i].mapped then cs[i].bytes else []
  {
    assert cs[..i + 1][..i] == cs[..i];
  }

  lemma NoChunks()
    ensures TotalLength([]) == 0 && Gathered([]) == []
  {
  }

  lemma TakeMore(a: Bytes, b: Bytes, n: nat)
    ensures Take(Take(a, n) + b, n) == Take(a + b, n)
  {
  }

  lemma {:induction false} LengthGrows(cs: seq<Iovec>, i: nat)
    requires i <= |cs|
    ensures TotalLength(cs[..i]) <= TotalLength(cs)
  {
    if i == |cs| {
      assert cs[..i] == cs;
    } else {
      LengthGrows(cs[..|cs| - 1], i);
      assert cs[..|cs| - 1][..i] == cs[..i];
    }
  }

  // Chunk by chunk, in the order they are listed.
  lemma {:induction false} GatheredConcat(a: seq<Iovec>, b: seq<Iovec>)
    ensures Gathered(a + b) == Gathered(a) + Gathered(b)
    ensures TotalLength(a + b) == TotalLength(a) + TotalLength(b)
  {
    if b == [] {
      assert a + b == a;
    } else {
      GatheredConcat(a, b[..|b| - 1]);
      assert (a + b)[..|a + b| - 1] == a + b[..|b| - 1];
    }
  }

  lemma {:induction false} GatheredLength(cs: seq<Iovec>)
    ensures |Gathered(cs)| <= TotalLength(cs)
    ensures (forall i :: 0 <= i < |cs| ==> cs[i].mapped) ==> |Gathered(cs)| == TotalLength(cs)
  {
    if cs != [] { GatheredLength(cs[..|cs| - 1]); }
  }

  // data->len is a 32-bit field.
  function ClampLength(total: nat): nat {
    if total > 0xFFFF_FFFF then 0xFFFF_FFFF else total
  }

  // probe_rustls_buffer_plaintext for a traced task with a reserved record. A submitted
  // event carries the first 64 KiB of the chunks it looked at, without gap when every
  // read succeeds, and never claims more than the caller declared.
  method ProbeBufferPlaintext(outbound: Outbound, buf: array<int>) returns (e: Event)
    requires buf.Length == MAX_BUF_SIZE
    modifies buf
    ensures var (cs, total) := match outbound
        case Single(c) => ([c], |c.bytes|)
        case Multiple(_, end, chunks) => (chunks[..Inspected(chunks)], end);
      var accepted := outbound.Multiple? ==> outbound.start == 0;
      && (e == NoEvent <==> !accepted || Gathered(cs) == [] || TotalLength(cs) > total)
      && (e.Event? ==>
            && e.len == Min(total, 0xFFFF_FFFF)
            && e.bufSize == Min(|Gathered(cs)|, 65536) <= total
            && buf[..e.bufSize] == Take(Gathered(cs), 65536))
  {
    match outbound
    case Single(c) =>
      OneChunk(c);
      var total := |c.bytes|;
      if total == 0 {
        return NoEvent;
      }
      var copied := if total > GROK_MAX_CAPTURE_SIZE then GROK_MAX_CAPTURE_SIZE else total;
      var failed := ReadUser(buf, 0, copied, c, 0);
      if failed {
        return NoEvent;
      }
      assert buf[..0 + copied] == c.bytes[..copied];
      return Event(ClampLength(total), copied);
    case Multiple(start, end, chunks) =>
      GatheredLength(chunks[..Inspected(chunks)]);
      if start != 0 || end == 0 {
        return NoEvent;
      }
      var copied := GatherChunks(buf, chunks, end);
      if copied == 0 {
        return NoEvent;
      }
      return Event(ClampLength(end), copied);
  }

  lemma OneChunk(c: Iovec)
    ensures Gathered([c]) == if c.mapped then c.bytes else []
    ensures TotalLength([c]) == |c.bytes|
  {
    assert [c][..0] == [];
  }

  // ---- probe_rustls_write_vectored ----

  const IOV_LIMIT := RUSTLS_COPY_CHUNK_SIZE * MAX_RUSTLS_CHUNKS_PER_IOV

  // What the inner loop takes of one iovec.
  function OfIovec(c: Iovec): Bytes {
    if c.mapped then Take(c.bytes, IOV_LIMIT) else []
  }

  lemma OfIovecIs(c: Iovec)
    ensures OfIovec(c) == if c.mapped then c.bytes[..Min(|c.bytes|, 131072)] else []
  {
  }

  lemma TakeFurther(s: Bytes, a: nat, n: nat)
    requires a + n <= |s|
    ensures s[..a] + s[a..a + n] == s[..a + n]
  {
  }

  method CopyInChunks(buf: array<int>, c: Iovec, copied: nat) returns (r: nat)
    requires buf.Length == MAX_BUF_SIZE && copied <= IOV_LIMIT
    modifies buf
    ensures r == copied + |OfIovec(c)| && buf[..r] == old(buf[..copied]) + OfIovec(c)
  {
    hide OfIovec, Take;
    OfIovecIs(c);
    r := copied;
    var source, remaining := 0, |c.bytes|;
    ghost var was := buf[..copied];
    for chunk := 0 to MAX_RUSTLS_CHUNKS_PER_IOV
      invariant source + remaining == |c.bytes| && r == copied + source
      invariant source == if c.mapped then Min(|c.bytes|, chunk * RUSTLS_COPY_CHUNK_SIZE) else 0
      invariant r <= MAX_BUF_SIZE && buf[..r] == was + c.bytes[..source]
    {
      if remaining == 0 || r > MAX_BUF_SIZE - RUSTLS_COPY_CHUNK_SIZE {
        break;
      }
      var copySize := remaining;
      if copySize > RUSTLS_COPY_CHUNK_SIZE {
        copySize := RUSTLS_COPY_CHUNK_SIZE;
      }
      var failed := ReadUser(buf, r, copySize, c, source);
      if failed {
        assert buf[..r] == buf[..r + copySize][..r];
        break;
      }
      TakeFurther(c.bytes, source, copySize);
      assert was + c.bytes[..source] + c.bytes[source..source + copySize] == was + c.bytes[..source + copySize];
      r := r + copySize;
      source := source + copySize;
      remaining := remaining - copySize;
    }
    assert source == |OfIovec(c)|;
  }

  // The iovecs the probe looks at: the first two, up to one whose descriptor cannot be
  // read.
  function Seen(iovecs: seq<Iovec>): (r: seq<Iovec>)
    ensures r <= iovecs && |r| <= 2 && forall i :: 0 <= i < |r| ==> iovecs[i].listed
    ensures |r| < 2 && |r| < |iovecs| ==> !iovecs[|r|].listed
  {
    if iovecs == [] || !iovecs[0].listed then []
    else if |iovecs| == 1 || !iovecs[1].listed then iovecs[..1]
    else iovecs[..MAX_RUSTLS_IOVECS]
  }

  function Captured(seen: seq<Iovec>): Bytes {
    if seen == [] then [] else Captured(seen[..|seen| - 1]) + OfIovec(seen[|seen| - 1])
  }

  // The event carries the first 128 KiB of each readable one of the first two iovecs,
  // and is marked longer than its data whenever there were more.
  method ProbeWriteVectored(iovecs: seq<Iovec>, buf: array<int>) returns (e: Event)
    requires buf.Length == MAX_BUF_SIZE
    modifies buf
    ensures e == NoEvent <==> iovecs == []
    ensures var seen := Seen(iovecs); var taken, total := Captured(seen), TotalLength(seen);
      e.Event? ==>
        && e.bufSize == |taken| <= 262144 && buf[..e.bufSize] == taken
        && e.len == Min(if |iovecs| > 2 && total <= |taken| then |taken| + 1 else total, 0xFFFF_FFFF)
  {
    if iovecs == [] {
      return NoEvent;
    }
    var copied, total := 0, 0;
    var i := 0;
    while i < MAX_RUSTLS_IOVECS
      invariant 0 <= i <= MAX_RUSTLS_IOVECS && i <= |iovecs| && forall k :: 0 <= k < i ==> iovecs[k].listed
      invariant copied == |Captured(iovecs[..i])| <= i * IOV_LIMIT && buf[..copied] == Captured(iovecs[..i])
      invariant total == TotalLength(iovecs[..i])
    {
      if i >= |iovecs| || !iovecs[i].listed {
        break;
      }
      assert iovecs[..i + 1][..i] == iovecs[..i];
      total := total + |iovecs[i].bytes|;
      copied := CopyInChunks(buf, iovecs[i], copied);
      i := i + 1;
    }
    assert Seen(iovecs) == iovecs[..i];
    if |iovecs| > MAX_RUSTLS_IOVECS && total <= copied {
      total := copied + 1;
    }
    return Event(ClampLength(total), copied);
  }

  lemma CapturedOne(c: Iovec)
    ensures Captured([c]) == OfIovec(c)
  {
    hide OfIovec;
    assert [c][..0] == [];
    assert Captured([]) == [];
  }

  lemma CapturedTwo(c: Iovec, d: Iovec)
    ensures Captured([c, d]) == OfIovec(c) + OfIovec(d)
  {
    hide OfIovec;
    CapturedOne(c);
    assert [c, d][..1] == [c];
  }

  lemma GatheredTwo(cs: seq<Iovec>)
    requires |cs| >= 2 && cs[0].mapped && cs[1].mapped
    ensures cs[0].bytes + cs[1].bytes <= Gathered(cs)
  {
    hide Gathered;
    PrefixOfGathered(cs, 2);
    GatheredStart(cs, cs[..2]);
  }

  lemma GatheredStart(cs: seq<Iovec>, two: seq<Iovec>)
    requires |cs| >= 2 && cs[0].mapped && cs[1].mapped && |two| == 2 && two[0] == cs[0] && two[1] == cs[1]
    ensures Gathered(two) == cs[0].bytes + cs[1].bytes
  {
    OneChunk(cs[0]);
    assert two[..1] == [cs[0]];
  }

  lemma SeenTwo(iovecs: seq<Iovec>)
    requires Readable(iovecs) && iovecs != []
    ensures |iovecs| == 1 ==> Seen(iovecs) == [iovecs[0]]
    ensures |iovecs| >= 2 ==> Seen(iovecs) == [iovecs[0], iovecs[1]]
  {
  }

  ghost predicate Readable(iovecs: seq<Iovec>) {
    forall i :: 0 <= i < |iovecs| ==> iovecs[i].listed && iovecs[i].mapped
  }

  // With readable memory the capture is a prefix of what is written when the first iovec
  // is within 128 KiB or nothing is taken after it.
  lemma CapturedIsPrefix(iovecs: seq<Iovec>)
    requires iovecs != [] && Readable(iovecs)
    requires |iovecs[0].bytes| <= 131072 || |iovecs| == 1 || |iovecs[1].bytes| == 0
    ensures Captured(Seen(iovecs)) <= Gathered(iovecs)
  {
    hide Gathered, Captured, Seen;
    SeenTwo(iovecs);
    if |iovecs| == 1 {
      CapturedOne(iovecs[0]);
      OneChunk(iovecs[0]);
      assert iovecs == [iovecs[0]];
    } else {
      CapturedTwo(iovecs[0], iovecs[1]);
      GatheredTwo(iovecs);
    }
  }

  // Otherwise it has a gap: after 128 KiB it goes on with the second iovec.
  lemma CapturedSkips(iovecs: seq<Iovec>)
    requires |iovecs| >= 2 && Readable(iovecs)
    requires |iovecs[0].bytes| > 131072 && |iovecs[1].bytes| > 0
    ensures var taken := Captured(Seen(iovecs)); |taken| > 131072 && taken[131072] == iovecs[1].bytes[0]
    ensures |Gathered(iovecs)| > 131072 && Gathered(iovecs)[131072] == iovecs[0].bytes[131072]
  {
    hide Gathered, Captured, Seen;
    SeenTwo(iovecs);
    CapturedTwo(iovecs[0], iovecs[1]);
    GatheredTwo(iovecs);
    var two := iovecs[0].bytes + iovecs[1].bytes;
    assert Gathered(iovecs)[..|two|] == two;
    assert two[131072] == iovecs[0].bytes[131072];
  }

  // Readable buffers of the given lengths.
  ghost predicate Sized(iovecs: seq<Iovec>, lengths: seq<nat>) {
    |iovecs| == |lengths| && Readable(iovecs) && forall i :: 0 <= i < |lengths| ==> |iovecs[i].bytes| == lengths[i]
  }

  // The first buffer all zeros, the others all ones: no gap goes unnoticed.
  function Marked(lengths: seq<nat>): (r: seq<Iovec>)
    ensures Sized(r, lengths)
  {
    seq(|lengths|, i requires 0 <= i < |lengths| =>
      Iovec(seq(lengths[i], _ => if i == 0 then 0 else 1), true, true))
  }

  // Whatever is written in buffers of these lengths, the capture is a prefix of it: this
  // holds if and only if the first is within 128 KiB or nothing is taken after it.
  lemma CapturedPrefixIff(lengths: seq<nat>)
    requires lengths != []
    ensures (forall iovecs :: Sized(iovecs, lengths) ==> Captured(Seen(iovecs)) <= Gathered(iovecs))
      <==> lengths[0] <= 131072 || |lengths| == 1 || lengths[1] == 0
  {
    hide Captured, Gathered, Seen;
    if lengths[0] <= 131072 || |lengths| == 1 || lengths[1] == 0 {
      forall iovecs | Sized(iovecs, lengths) ensures Captured(Seen(iovecs)) <= Gathered(iovecs) {
        CapturedIsPrefix(iovecs);
      }
    } else {
      var iovecs := Marked(lengths);
      CapturedSkips(iovecs);
      assert iovecs[1].bytes[0] == 1 && iovecs[0].bytes[131072] == 0;
      assert !(Captured(Seen(iovecs)) <= Gathered(iovecs));
    }
  }

  lemma {:induction false} PrefixOfGathered(cs: seq<Iovec>, i: nat)
    requires i <= |cs|
    ensures Gathered(cs[..i]) <= Gathered(cs)
  {
    if i == |cs| {
      assert cs[..i] == cs;
    } else {
      PrefixOfGathered(cs[..|cs| - 1], i);
      assert cs[..|cs| - 1][..i] == cs[..i];
    }
  }
}
