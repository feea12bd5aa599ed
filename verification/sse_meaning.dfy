// What the grouping of sse_timeline.dfy holds at each position, spelled out on the
// entries themselves.
module SseMeaning {
  import opened SseTimeline

  // ---- Texts ----

  // Event by event: the non-empty texts of text and thinking deltas, in order, and nothing
  // else.
  lemma TextsAt(es: seq<Event>, i: nat)
    requires i < |es|
    ensures Texts(es[..0]) == []
    ensures Texts(es[..i + 1]) == Texts(es[..i]) +
      match es[i]
      case ContentBlockDelta(TextDelta(text)) => if text != "" then [text] else []
      case ContentBlockDelta(ThinkingDelta(text)) => if text != "" then [text] else []
      case ContentBlockDelta(OtherDelta) => []
      case OtherEvent => []
  {
    assert es[..i + 1][..i] == es[..i];
  }

  // Chunk by chunk, the texts of their events.
  lemma {:induction false} ChunkTextsNext(cs: seq<Record>, c: Record)
    ensures ChunkTexts([]) == []
    ensures ChunkTexts(cs + [c]) == ChunkTexts(cs) + Texts(c.events)
  {
    if cs == [] {
      assert cs + [c] == [c] && [c][1..] == [];
    } else {
      ChunkTextsNext(cs[1..], c);
      assert (cs + [c])[1..] == cs[1..] + [c];
    }
  }

  // Part by part, their concatenation.
  lemma {:induction false} JoinNext(parts: seq<string>, part: string)
    ensures Join([]) == ""
    ensures Join(parts + [part]) == Join(parts) + part
  {
    if parts == [] {
      assert parts + [part] == [part] && [part][1..] == [];
    } else {
      JoinNext(parts[1..], part);
      assert (parts + [part])[1..] == parts[1..] + [part];
    }
  }

  // ---- Positions ----

  // How many entries are no chunks.
  function Heads(rs: seq<Record>): nat {
    if rs == [] then 0 else (if rs[0].kind.SseChunk? then 0 else 1) + Heads(rs[1..])
  }

  lemma {:induction false} HeadsSkip(rs: seq<Record>, k: nat)
    requires k <= |rs| && forall i :: 0 <= i < k ==> rs[i].kind.SseChunk?
    ensures Heads(rs) == Heads(rs[k..])
    decreases k
  {
    if k > 0 {
      HeadsSkip(rs[1..], k - 1);
      assert rs[1..][k - 1..] == rs[k..];
    } else {
      assert rs[0..] == rs;
    }
  }

  lemma {:induction false} GroupSize(rs: seq<Record>)
    ensures |Group(rs)| == Heads(rs)
    decreases |rs|
  {
    if rs != [] {
      var r, rest := rs[0], rs[1..];
      if r.kind == Response(true) {
        var k := RunLength(r.ts, r.tid, rest);
        RunIsLongest(r.ts, r.tid, rest);
        HeadsSkip(rest, k);
        GroupSize(rest[k..]);
      } else {
        GroupSize(rest);
      }
    }
  }

  // The view of the entry at p, with the chunks that follow it.
  ghost predicate ViewOf(v: View, rs: seq<Record>, p: nat)
    requires p < |rs|
  {
    var r, cs := rs[p], v.raw;
    && v.kind == r.kind && v.tid == r.tid && v.parts == Nothing
    && p + 1 + |cs| <= |rs| && cs == rs[p + 1..p + 1 + |cs|]
    && (r.kind != Response(true) ==> cs == [] && v.ts == r.ts && v.body == r.body)
    && (r.kind == Response(true) ==>
          && v.ts == rs[p + |cs|].ts
          && (forall j :: p < j <= p + |cs| ==> Follows(rs, r.tid, j))
          && (p + 1 + |cs| < |rs| ==> !Follows(rs, r.tid, p + 1 + |cs|))
          && var text := Join((if r.body.Just? && r.body.value != "" then Texts(r.events) else []) + ChunkTexts(cs));
             v.body == if text == "" then r.body else Just(text))
  }

  // A chunk of the thread, at most 5 seconds after the entry before it.
  predicate Follows(rs: seq<Record>, tid: int, j: nat)
    requires 0 < j < |rs|
  {
    rs[j].kind.SseChunk? && rs[j].tid == tid && rs[j].ts - rs[j - 1].ts <= 5_000_000_000
  }

  lemma PlainView(rs: seq<Record>, p: nat)
    requires p < |rs| && rs[p].kind != Response(true)
    ensures ViewOf(Plain(rs[p]), rs, p)
  {
  }

  lemma RunEntry(ts: int, tid: int, rs: seq<Record>, i: nat)
    requires i < RunLength(ts, tid, rs)
    ensures rs[i].kind.SseChunk? && rs[i].tid == tid && rs[i].ts - (if i == 0 then ts else rs[i - 1].ts) <= 5_000_000_000
  {
    RunIsLongest(ts, tid, rs);
  }

  lemma MergedView(rs: seq<Record>)
    requires rs != [] && rs[0].kind == Response(true)
    ensures var rest := rs[1..]; var k := RunLength(rs[0].ts, rs[0].tid, rest); ViewOf(Merged(rs[0], rest[..k]), rs, 0)
  {
    hide Texts, ChunkTexts, Join, RunLength;
    var r, rest := rs[0], rs[1..];
    var k := RunLength(r.ts, r.tid, rest);
    RunIsLongest(r.ts, r.tid, rest);
    assert rest[..k] == rs[1..1 + k];
    assert forall i :: 0 <= i < |rest| ==> rest[i] == rs[i + 1];
    forall j | 0 < j <= k ensures Follows(rs, r.tid, j) {
      RunEntry(r.ts, r.tid, rest, j - 1);
      assert rest[j - 1] == rs[j] && (j >= 2 ==> rest[j - 2] == rs[j - 1]);
    }
  }

  lemma ViewShifts(v: View, rs: seq<Record>, n: nat, p: nat)
    requires n <= |rs| && p < |rs| - n && ViewOf(v, rs[n..], p)
    ensures ViewOf(v, rs, n + p)
  {
    hide Texts, ChunkTexts, Join;
    var tail, cs := rs[n..], v.raw;
    assert tail[p + 1..p + 1 + |cs|] == rs[n + p + 1..n + p + 1 + |cs|];
    var q, tid := n + p, rs[n + p].tid;
    forall j | q < j <= q + |cs| && rs[q].kind == Response(true) ensures Follows(rs, tid, j) {
      assert Follows(tail, tid, j - n);
    }
  }

  ghost predicate Placed(rs: seq<Record>, p: nat)
    requires p < |rs|
  {
    Heads(rs[..p]) < |Group(rs)| && ViewOf(Group(rs)[Heads(rs[..p])], rs, p)
  }

  lemma GroupHead(rs: seq<Record>)
    requires rs != []
    ensures var r, rest := rs[0], rs[1..];
      && (r.kind.SseChunk? ==> Group(rs) == Group(rest))
      && (!r.kind.SseChunk? && r.kind != Response(true) ==> Group(rs) == [Plain(r)] + Group(rest))
      && (r.kind == Response(true) ==> var k := RunLength(r.ts, r.tid, rest); Group(rs) == [Merged(r, rest[..k])] + Group(rest[k..]))
  {
  }

  lemma HeadsHead(rs: seq<Record>, p: nat)
    requires 0 < p <= |rs|
    ensures Heads(rs[..p]) == (if rs[0].kind.SseChunk? then 0 else 1) + Heads(rs[1..][..p - 1])
  {
    assert rs[..p][0] == rs[0] && rs[..p][1..] == rs[1..][..p - 1];
  }

  lemma PlainPlaced(rs: seq<Record>, p: nat)
    requires 0 < p < |rs| && rs[0].kind != Response(true) && Placed(rs[1..], p - 1)
    ensures Placed(rs, p)
  {
    hide ViewOf, Group, Heads;
    GroupHead(rs);
    HeadsHead(rs, p);
    ViewShifts(Group(rs[1..])[Heads(rs[1..][..p - 1])], rs, 1, p - 1);
  }

  lemma StreamPlaced(rs: seq<Record>, p: nat, k: nat)
    requires rs != [] && rs[0].kind == Response(true) && k == RunLength(rs[0].ts, rs[0].tid, rs[1..])
    requires k < p < |rs| && Placed(rs[1..][k..], p - 1 - k)
    ensures Placed(rs, p)
  {
    hide ViewOf, Group, Heads, RunLength;
    var rest := rs[1..];
    var tail := rest[k..];
    GroupHead(rs);
    HeadsHead(rs, p);
    RunIsLongest(rs[0].ts, rs[0].tid, rest);
    HeadsSkip(rest[..p - 1], k);
    assert rest[..p - 1][k..] == tail[..p - 1 - k];
    assert tail == rs[1 + k..];
    ViewShifts(Group(tail)[Heads(tail[..p - 1 - k])], rs, 1 + k, p - 1 - k);
  }

  lemma FirstPlaced(rs: seq<Record>)
    requires rs != [] && !rs[0].kind.SseChunk?
    ensures Placed(rs, 0)
  {
    hide ViewOf, Group;
    GroupHead(rs);
    assert rs[..0] == [];
    if rs[0].kind == Response(true) { MergedView(rs); } else { PlainView(rs, 0); }
  }

  // Entry by entry: the requests and responses, in order, are the timeline; each event
  // stream holds exactly the chunks right after it that follow one another, the time of
  // the last, and their texts after its own, or its own body if there is no text.
  lemma {:induction false} GroupAt(rs: seq<Record>, p: nat)
    requires p < |rs| && !rs[p].kind.SseChunk?
    ensures |Group(rs)| == Heads(rs) && Heads(rs[..p]) < |Group(rs)|
    ensures ViewOf(Group(rs)[Heads(rs[..p])], rs, p)
    decreases |rs|
  {
    GroupSize(rs);
    hide ViewOf, Group, Heads, RunLength;
    var rest := rs[1..];
    if p == 0 {
      FirstPlaced(rs);
    } else if rs[0].kind == Response(true) {
      var k := RunLength(rs[0].ts, rs[0].tid, rest);
      RunIsLongest(rs[0].ts, rs[0].tid, rest);
      assert rest[p - 1] == rs[p];
      GroupAt(rest[k..], p - 1 - k);
      StreamPlaced(rs, p, k);
    } else {
      GroupAt(rest, p - 1);
      PlainPlaced(rs, p);
    }
  }
}
