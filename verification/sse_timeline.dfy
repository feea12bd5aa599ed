// group_by_timeline of script/ssl_log_analyzer.py: a chronological timeline of
// requests and responses, with the chunks of an event stream merged into the response
// that opened it. Entries arrive as already parsed records.
module SseTimeline {

  // sse_merge_timeout, in nanoseconds
  const MERGE_TIMEOUT := 5_000_000_000

  datatype Maybe<T> = Nothing | Just(value: T)

  // The delta of a content_block_delta event that carried parsed data.
  datatype Delta = TextDelta(text: string) | ThinkingDelta(text: string) | OtherDelta

  datatype Event = ContentBlockDelta(delta: Delta) | OtherEvent

  datatype Kind = Request | Response(isSse: bool) | SseChunk

  // events are those of the chunk, or those found in the body of a response.
  datatype Record = Record(kind: Kind, ts: int, tid: int, body: Maybe<string>, events: seq<Event>)

  // A timeline entry: the record's fields as they stand, sse_text_parts while the
  // response is open, and sse_raw_chunks.
  datatype View = View(kind: Kind, ts: int, tid: int, body: Maybe<string>, parts: Maybe<seq<string>>, raw: seq<Record>)

  // ---- Text extraction ----

  function DeltaText(e: Event): string {
    if e.ContentBlockDelta? && !e.delta.OtherDelta? then e.delta.text else ""
  }

  // The non-empty texts, in order.
  function Texts(es: seq<Event>): seq<string> {
    if es == [] then []
    else Texts(es[..|es| - 1]) + if DeltaText(es[|es| - 1]) != "" then [DeltaText(es[|es| - 1])] else []
  }

  function Join(parts: seq<string>): string {
    if parts == [] then "" else parts[0] + Join(parts[1..])
  }

  // _extract_sse_events_from_body: nothing without a non-empty body.
  function InitialTexts(r: Record): seq<string> {
    if r.body.Just? && r.body.value != "" then Texts(r.events) else []
  }

  // ---- What the timeline is meant to be ----

  // Chunk c continues a stream of thread tid last heard of at time ts.
  predicate Continues(ts: int, tid: int, c: Record) {
    c.kind.SseChunk? && c.tid == tid && c.ts - ts <= MERGE_TIMEOUT
  }

  // Length of the longest run at the start of rs that continues the stream.
  function RunLength(ts: int, tid: int, rs: seq<Record>): (k: nat)
    ensures k <= |rs|
    decreases |rs|
  {
    if rs == [] || !Continues(ts, tid, rs[0]) then 0
    else 1 + RunLength(rs[0].ts, tid, rs[1..])
  }

  function ChunkTexts(cs: seq<Record>): seq<string> {
    if cs == [] then [] else Texts(cs[0].events) + ChunkTexts(cs[1..])
  }

  function LastTime(ts: int, cs: seq<Record>): int {
    if cs == [] then ts else cs[|cs| - 1].ts
  }

  function BodyOf(body: Maybe<string>, parts: seq<string>): Maybe<string> {
    if Join(parts) != "" then Just(Join(parts)) else body
  }

  // A response together with the chunks that belong to it.
  function Merged(r: Record, cs: seq<Record>): View {
    View(r.kind, LastTime(r.ts, cs), r.tid, BodyOf(r.body, InitialTexts(r) + ChunkTexts(cs)), Nothing, cs)
  }

  function Plain(r: Record): View {
    View(r.kind, r.ts, r.tid, r.body, Nothing, [])
  }

  function Group(rs: seq<Record>): seq<View>
    decreases |rs|
  {
    if rs == [] then []
    else
      var r, rest := rs[0], rs[1..];
      match r.kind
      case SseChunk => Group(rest)
      case Request => [Plain(r)] + Group(rest)
      case Response(isSse) =>
        if !isSse then [Plain(r)] + Group(rest)
        else
          var k := RunLength(r.ts, r.tid, rest);
          [Merged(r, rest[..k])] + Group(rest[k..])
  }

  // The run is the longest: its entries are chunks of the thread, each at most 5 seconds
  // after the one before it (the first after the response), and the entry after the run,
  // if any, is not.
  lemma {:induction false} RunIsLongest(ts: int, tid: int, rs: seq<Record>)
    ensures var k := RunLength(ts, tid, rs);
      && (forall i :: 0 <= i < k ==>
            rs[i].kind.SseChunk? && rs[i].tid == tid && rs[i].ts - (if i == 0 then ts else rs[i - 1].ts) <= 5_000_000_000)
      && (k < |rs| ==>
            !(rs[k].kind.SseChunk? && rs[k].tid == tid && rs[k].ts - (if k == 0 then ts else rs[k - 1].ts) <= 5_000_000_000))
    decreases |rs|
  {
    if rs != [] && Continues(ts, tid, rs[0]) {
      var rest := rs[1..];
      RunIsLongest(rs[0].ts, tid, rest);
      assert forall i :: 1 <= i < |rs| ==> rs[i] == rest[i - 1];
    }
  }

  // ---- The loop as a fold ----

  // finalized lists the timeline positions finalized so far, in order.
  datatype Fold = Fold(timeline: seq<View>, open: bool, finalized: seq<nat>)

  const START := Fold([], false, [])

  // _finalize_sse_response
  function Finalize(v: View): View {
    if v.parts.Just? then v.(body := BodyOf(v.body, v.parts.value), parts := Nothing) else v
  }

  function SetLast(vs: seq<View>, v: View): (r: seq<View>)
    requires vs != []
    ensures |r| == |vs|
  {
    vs[|vs| - 1 := v]
  }

  function Close(f: Fold): Fold {
    if f.open && f.timeline != [] then
      var n := |f.timeline| - 1;
      Fold(SetLast(f.timeline, Finalize(f.timeline[n])), false, f.finalized + [n])
    else f
  }

  function Absorb(v: View, c: Record): View {
    v.(raw := v.raw + [c], ts := c.ts,
       parts := if v.parts.Just? then Just(v.parts.value + Texts(c.events)) else v.parts)
  }

  function Step(f: Fold, r: Record): Fold {
    match r.kind
    case Request =>
      var g := Close(f);
      g.(timeline := g.timeline + [Plain(r)])
    case Response(isSse) =>
      var g := Close(f);
      if isSse then
        g.(timeline := g.timeline + [Plain(r).(parts := Just(InitialTexts(r)))], open := true)
      else
        g.(timeline := g.timeline + [Plain(r)])
    case SseChunk =>
      if f.open && f.timeline != [] && Continues(f.timeline[|f.timeline| - 1].ts, f.timeline[|f.timeline| - 1].tid, r) then
        f.(timeline := SetLast(f.timeline, Absorb(f.timeline[|f.timeline| - 1], r)))
      else Close(f)
  }

  function FoldFrom(f: Fold, rs: seq<Record>): Fold
    decreases |rs|
  {
    if rs == [] then f else FoldFrom(Step(f, rs[0]), rs[1..])
  }

  function FinalPass(vs: seq<View>): (r: seq<View>)
    ensures |r| == |vs|
  {
    seq(|vs|, i requires 0 <= i < |vs| => Finalize(vs[i]))
  }

  function Timeline(rs: seq<Record>): seq<View> {
    FinalPass(Close(FoldFrom(START, rs)).timeline)
  }

  // ---- What the loop keeps ----

  ghost predicate Sorted(rs: seq<Record>) {
    forall i, j :: 0 <= i < j < |rs| ==> rs[i].ts <= rs[j].ts
  }

  // Only the last entry can be open, and it is an event-stream response; every other
  // such response has been finalized, once.
  ghost predicate LoopInv(f: Fold) {
    var n := |f.timeline|;
    && (f.open ==> n > 0 && f.timeline[n - 1].kind == Response(true))
    && (forall i :: 0 <= i < n ==> (f.timeline[i].parts.Just? <==> f.open && i == n - 1))
    && (forall i, j :: 0 <= i < j < |f.finalized| ==> f.finalized[i] < f.finalized[j])
    && (forall i :: i in f.finalized <==> 0 <= i < n && f.timeline[i].kind == Response(true) && !(f.open && i == n - 1))
  }

  ghost predicate TimesUpTo(f: Fold, now: int) {
    && (forall i, j :: 0 <= i < j < |f.timeline| ==> f.timeline[i].ts <= f.timeline[j].ts)
    && (forall i :: 0 <= i < |f.timeline| ==> f.timeline[i].ts <= now)
  }

  lemma CloseKeeps(f: Fold)
    requires LoopInv(f)
    ensures LoopInv(Close(f)) && !Close(f).open
  {
    var g := Close(f);
    if f.open {
      var n := |f.timeline| - 1;
      forall i | 0 <= i < |f.finalized| ensures f.finalized[i] < n {
        assert f.finalized[i] in f.finalized;
      }
      forall i ensures i in g.finalized <==> i in f.finalized || i == n {}
    }
  }

  lemma StepKeeps(f: Fold, r: Record)
    requires LoopInv(f)
    ensures LoopInv(Step(f, r))
  {
    CloseKeeps(f);
  }

  lemma CloseTimes(f: Fold)
    ensures |Close(f).timeline| == |f.timeline|
    ensures forall i :: 0 <= i < |f.timeline| ==> Close(f).timeline[i].ts == f.timeline[i].ts
  {
  }

  lemma StepTimes(f: Fold, r: Record, now: int)
    requires TimesUpTo(f, now) && now <= r.ts
    ensures TimesUpTo(Step(f, r), r.ts)
  {
    hide Close, InitialTexts, Texts;
    CloseTimes(f);
  }

  lemma {:induction false} FoldSnoc(f: Fold, rs: seq<Record>, r: Record)
    ensures FoldFrom(f, rs + [r]) == Step(FoldFrom(f, rs), r)
    decreases |rs|
  {
    if rs == [] {
      assert rs + [r] == [r];
      assert [r][1..] == [];
    } else {
      assert (rs + [r])[1..] == rs[1..] + [r];
      FoldSnoc(Step(f, rs[0]), rs[1..], r);
    }
  }

  // After every entry: at most one response is open, it is the last entry of the
  // timeline, and every other event-stream response has been finalized exactly once.
  lemma {:induction false} LoopKeepsInv(rs: seq<Record>)
    ensures LoopInv(FoldFrom(START, rs))
  {
    if rs != [] {
      var front, r := rs[..|rs| - 1], rs[|rs| - 1];
      LoopKeepsInv(front);
      assert rs == front + [r];
      FoldSnoc(START, front, r);
      StepKeeps(FoldFrom(START, front), r);
    }
  }

  // And although merging moves a response's timestamp forward in place, the timeline
  // is sorted after every entry.
  lemma {:induction false} LoopKeepsOrder(rs: seq<Record>, now: int)
    requires Sorted(rs) && (rs != [] ==> now == rs[|rs| - 1].ts)
    ensures TimesUpTo(FoldFrom(START, rs), now)
  {
    if rs != [] {
      var front, r := rs[..|rs| - 1], rs[|rs| - 1];
      var before := if front == [] then now else front[|front| - 1].ts;
      LoopKeepsOrder(front, before);
      assert rs == front + [r];
      FoldSnoc(START, front, r);
      StepTimes(FoldFrom(START, front), r, before);
    }
  }

  // When the loop is done and the last response closed, the final pass finds nothing
  // left to finalize: every event-stream response was finalized, once.
  lemma FinalPassIdle(rs: seq<Record>)
    ensures var f := Close(FoldFrom(START, rs));
      && FinalPass(f.timeline) == f.timeline
      && (forall i :: i in f.finalized <==> 0 <= i < |f.timeline| && f.timeline[i].kind == Response(true))
      && (forall i, j :: 0 <= i < j < |f.finalized| ==> f.finalized[i] < f.finalized[j])
      && (forall i :: 0 <= i < |f.timeline| ==> f.timeline[i].parts == Nothing)
  {
    LoopKeepsInv(rs);
    CloseKeeps(FoldFrom(START, rs));
  }

  // ---- The loop computes the grouping ----

  // A response left open, together with the chunks still to come.
  function Completed(v: View, cs: seq<Record>): View {
    v.(ts := LastTime(v.ts, cs), raw := v.raw + cs, parts := Nothing,
       body := BodyOf(v.body, (if v.parts.Just? then v.parts.value else []) + ChunkTexts(cs)))
  }

  lemma AbsorbCompletes(v: View, c: Record, cs: seq<Record>)
    requires v.parts.Just?
    ensures Completed(Absorb(v, c), cs) == Completed(v, [c] + cs)
  {
    assert ([c] + cs)[1..] == cs;
    assert v.parts.value + Texts(c.events) + ChunkTexts(cs) == v.parts.value + (Texts(c.events) + ChunkTexts(cs));
    assert v.raw + [c] + cs == v.raw + ([c] + cs);
  }

  // Closing it, it has all its chunks.
  lemma CloseCompletes(f: Fold)
    requires f.open && f.timeline != [] && f.timeline[|f.timeline| - 1].parts.Just?
    ensures var n := |f.timeline| - 1;
      !Close(f).open && Close(f).timeline == f.timeline[..n] + [Completed(f.timeline[n], [])]
  {
    var v := f.timeline[|f.timeline| - 1];
    assert v.parts.value + [] == v.parts.value && v.raw + [] == v.raw;
  }

  ghost predicate OpenGrouped(f: Fold, rs: seq<Record>)
    requires f.timeline != []
  {
    var v := f.timeline[|f.timeline| - 1];
    var k := RunLength(v.ts, v.tid, rs);
    Close(FoldFrom(f, rs)).timeline == f.timeline[..|f.timeline| - 1] + [Completed(v, rs[..k])] + Group(rs[k..])
  }

  // One chunk of the run goes in.
  lemma OpenAbsorbs(f: Fold, rs: seq<Record>)
    requires f.open && f.timeline != [] && f.timeline[|f.timeline| - 1].parts.Just? && rs != []
    requires var v := f.timeline[|f.timeline| - 1]; Continues(v.ts, v.tid, rs[0])
    requires OpenGrouped(Step(f, rs[0]), rs[1..])
    ensures OpenGrouped(f, rs)
  {
    hide Completed, Group, Close;
    var n := |f.timeline| - 1;
    var v, c, rest := f.timeline[n], rs[0], rs[1..];
    var k := RunLength(c.ts, v.tid, rest);
    AbsorbCompletes(v, c, rest[..k]);
    assert Step(f, c).timeline[..n] == f.timeline[..n];
    assert [c] + rest[..k] == rs[..k + 1] && rest[k..] == rs[k + 1..];
  }

  lemma {:induction false} OpenGroups(f: Fold, rs: seq<Record>)
    requires f.open && f.timeline != [] && f.timeline[|f.timeline| - 1].parts.Just?
    ensures OpenGrouped(f, rs)
    decreases |rs|, 1
  {
    var v := f.timeline[|f.timeline| - 1];
    assert rs[..0] == [] && rs[0..] == rs;
    if rs == [] {
      CloseCompletes(f);
      assert Group(rs) == [];
    } else if Continues(v.ts, v.tid, rs[0]) {
      OpenGroups(Step(f, rs[0]), rs[1..]);
      OpenAbsorbs(f, rs);
    } else {
      CloseCompletes(f);
      assert Step(Close(f), rs[0]) == Step(f, rs[0]);
      ClosedGroups(Close(f), rs);
    }
  }

  lemma {:induction false} ClosedGroups(f: Fold, rs: seq<Record>)
    requires !f.open
    ensures Close(FoldFrom(f, rs)).timeline == f.timeline + Group(rs)
    decreases |rs|, 0
  {
    if rs == [] {
      assert f.timeline + [] == f.timeline;
    } else if rs[0].kind == Response(true) {
      SseGroups(f, rs);
    } else {
      ClosedGroups(Step(f, rs[0]), rs[1..]);
      if !rs[0].kind.SseChunk? {
        assert f.timeline + [Plain(rs[0])] + Group(rs[1..]) == f.timeline + ([Plain(rs[0])] + Group(rs[1..]));
      }
    }
  }

  lemma SseUnfolds(f: Fold, rs: seq<Record>)
    requires !f.open && rs != [] && rs[0].kind == Response(true)
    ensures var r, rest := rs[0], rs[1..]; var k := RunLength(r.ts, r.tid, rest);
      && Group(rs) == [Merged(r, rest[..k])] + Group(rest[k..])
      && FoldFrom(f, rs) == FoldFrom(Fold(f.timeline + [Plain(r).(parts := Just(InitialTexts(r)))], true, f.finalized), rest)
  {
  }

  lemma {:induction false} SseGroups(f: Fold, rs: seq<Record>)
    requires !f.open && rs != [] && rs[0].kind == Response(true)
    ensures Close(FoldFrom(f, rs)).timeline == f.timeline + Group(rs)
    decreases |rs| - 1, 2
  {
    hide Group, FoldFrom, Close, Merged, InitialTexts, RunLength;
    var r, rest := rs[0], rs[1..];
    SseUnfolds(f, rs);
    var g := Fold(f.timeline + [Plain(r).(parts := Just(InitialTexts(r)))], true, f.finalized);
    OpenGroups(g, rest);
    var k := RunLength(r.ts, r.tid, rest);
    OpenIsMerged(r, rest[..k]);
    assert g.timeline[..|g.timeline| - 1] == f.timeline;
    assert f.timeline + [Merged(r, rest[..k])] + Group(rest[k..]) == f.timeline + ([Merged(r, rest[..k])] + Group(rest[k..]));
  }

  lemma OpenIsMerged(r: Record, cs: seq<Record>)
    ensures Completed(Plain(r).(parts := Just(InitialTexts(r))), cs) == Merged(r, cs)
  {
    assert [] + cs == cs;
  }

  // The loop's result is the declared grouping: each request and each ordinary response
  // as it came, each event stream with exactly the longest run of its chunks right
  // after it, its text the initial parts followed by theirs.
  lemma TimelineIsGroup(rs: seq<Record>)
    ensures Timeline(rs) == Group(rs)
  {
    FinalPassIdle(rs);
    ClosedGroups(START, rs);
    assert [] + Group(rs) == Group(rs);
  }

  // ---- sorted(), by timestamp ----

  // Python's sort is stable: r goes after the entries with its timestamp.
  function InsertByTime(rs: seq<Record>, r: Record): seq<Record> {
    if rs == [] || rs[|rs| - 1].ts <= r.ts then rs + [r]
    else InsertByTime(rs[..|rs| - 1], r) + [rs[|rs| - 1]]
  }

  function SortByTime(rs: seq<Record>): seq<Record> {
    if rs == [] then [] else InsertByTime(SortByTime(rs[..|rs| - 1]), rs[|rs| - 1])
  }

  function At(ts: int, rs: seq<Record>): seq<Record> {
    if rs == [] then []
    else At(ts, rs[..|rs| - 1]) + if rs[|rs| - 1].ts == ts then [rs[|rs| - 1]] else []
  }

  lemma {:induction false} InsertPermutes(rs: seq<Record>, r: Record)
    ensures multiset(InsertByTime(rs, r)) == multiset(rs) + multiset{r}
  {
    if rs != [] && rs[|rs| - 1].ts > r.ts {
      InsertPermutes(rs[..|rs| - 1], r);
      assert rs == rs[..|rs| - 1] + [rs[|rs| - 1]];
    }
  }

  lemma {:induction false} InsertBound(rs: seq<Record>, r: Record, bound: int)
    requires r.ts <= bound && forall i :: 0 <= i < |rs| ==> rs[i].ts <= bound
    ensures forall i :: 0 <= i < |InsertByTime(rs, r)| ==> InsertByTime(rs, r)[i].ts <= bound
  {
    if rs != [] && rs[|rs| - 1].ts > r.ts {
      InsertBound(rs[..|rs| - 1], r, bound);
    }
  }

  lemma {:induction false} InsertSorts(rs: seq<Record>, r: Record)
    requires Sorted(rs)
    ensures Sorted(InsertByTime(rs, r))
  {
    if rs != [] && rs[|rs| - 1].ts > r.ts {
      var front, last := rs[..|rs| - 1], rs[|rs| - 1];
      InsertSorts(front, r);
      InsertBound(front, r, last.ts);
    }
  }

  lemma AtSnoc(ts: int, rs: seq<Record>, r: Record)
    ensures At(ts, rs + [r]) == At(ts, rs) + if r.ts == ts then [r] else []
  {
    assert (rs + [r])[..|rs|] == rs;
  }

  lemma {:induction false} InsertIsStable(ts: int, rs: seq<Record>, r: Record)
    requires Sorted(rs)
    ensures At(ts, InsertByTime(rs, r)) == At(ts, rs + [r])
  {
    hide At;
    if rs != [] && rs[|rs| - 1].ts > r.ts {
      var front, last := rs[..|rs| - 1], rs[|rs| - 1];
      InsertIsStable(ts, front, r);
      assert rs == front + [last];
      AtSnoc(ts, InsertByTime(front, r), last);
      AtSnoc(ts, front, r);
      AtSnoc(ts, front, last);
      AtSnoc(ts, rs, r);
    }
  }

  lemma {:induction false} SortSorts(rs: seq<Record>)
    ensures Sorted(SortByTime(rs)) && multiset(SortByTime(rs)) == multiset(rs)
  {
    if rs != [] {
      var front, r := rs[..|rs| - 1], rs[|rs| - 1];
      SortSorts(front);
      assert rs == front + [r];
      InsertSorts(SortByTime(front), r);
      InsertPermutes(SortByTime(front), r);
    }
  }

  lemma {:induction false} SortIsStable(ts: int, rs: seq<Record>)
    ensures At(ts, SortByTime(rs)) == At(ts, rs)
  {
    if rs != [] {
      var front, r := rs[..|rs| - 1], rs[|rs| - 1];
      SortSorts(front);
      SortIsStable(ts, front);
      InsertIsStable(ts, SortByTime(front), r);
      assert (SortByTime(front) + [r])[..|SortByTime(front)|] == SortByTime(front);
    }
  }

  // The whole of group_by_timeline on the entries as collected.
  lemma AnalyzerTimeline(all: seq<Record>)
    ensures Timeline(SortByTime(all)) == Group(SortByTime(all))
    ensures forall i, j :: 0 <= i < j < |Timeline(SortByTime(all))| ==>
              Timeline(SortByTime(all))[i].ts <= Timeline(SortByTime(all))[j].ts
  {
    var rs := SortByTime(all);
    SortSorts(all);
    TimelineIsGroup(rs);
    LoopKeepsOrder(rs, LastTime(0, rs));
    FinalPassIdle(rs);
  }

  // ---- The loop on the dictionaries themselves ----

  class Entry {
    const kind: Kind
    const tid: int
    const events: seq<Event>
    var ts: int
    var body: Maybe<string>
    var parts: Maybe<seq<string>>
    var raw: seq<Record>
    // How often this response has been finalized.
    ghost var finalized: nat

    constructor (r: Record)
      ensures AsRecord() == r && IsFresh()
    {
      kind, tid, events := r.kind, r.tid, r.events;
      ts, body, parts, raw := r.ts, r.body, Nothing, [];
      finalized := 0;
    }

    function AsRecord(): Record
      reads this
    {
      Record(kind, ts, tid, body, events)
    }

    function AsView(): View
      reads this
    {
      View(kind, ts, tid, body, parts, raw)
    }

    // As process_log_entry leaves it.
    ghost predicate IsFresh()
      reads this
    {
      parts == Nothing && raw == [] && finalized == 0
    }

    // A chunk joins the open response.
    method Merge(chunk: Record, texts: seq<string>)
      requires parts.Just? && texts == Texts(chunk.events)
      modifies this`raw, this`parts, this`ts
      ensures AsView() == Absorb(old(AsView()), chunk)
    {
      raw := raw + [chunk];
      parts := Just(parts.value + texts);
      ts := chunk.ts;
    }

    // _finalize_sse_response
    method FinalizeSse()
      modifies this
      ensures AsView() == Finalize(old(AsView()))
      ensures finalized == old(finalized) + if old(parts.Just?) then 1 else 0
    {
      if parts.Just? {
        finalized := finalized + 1;
        var merged := Join(parts.value);
        if merged != "" {
          body := Just(merged);
        }
        parts := Nothing;
      }
    }
  }

  ghost function Views(es: seq<Entry>): (r: seq<View>)
    reads es
    ensures |r| == |es|
  {
    seq(|es|, i requires 0 <= i < |es| reads es => es[i].AsView())
  }

  ghost function Records(es: seq<Entry>): (r: seq<Record>)
    reads es
    ensures |r| == |es|
  {
    seq(|es|, i requires 0 <= i < |es| reads es => es[i].AsRecord())
  }

  ghost function Objects(es: seq<Entry>): set<Entry> {
    set e | e in es
  }

  ghost predicate AllDifferent(es: seq<Entry>) {
    forall i, j :: 0 <= i < j < |es| ==> es[i] != es[j]
  }

  // The loop's variables stand for the fold state f; current is the open response.
  ghost predicate Stands(f: Fold, timeline: seq<Entry>, current: Entry?)
    reads timeline
  {
    && LoopInv(f) && AllDifferent(timeline) && Views(timeline) == f.timeline
    && (current != null <==> f.open)
    && (current != null ==> timeline != [] && current == timeline[|timeline| - 1])
    && FinalizedOnce(timeline, current)
  }

  // Every event-stream response but the open one has been finalized, once; nothing else has.
  ghost predicate FinalizedOnce(timeline: seq<Entry>, current: Entry?)
    reads timeline
  {
    forall e :: e in timeline ==> e.finalized == if e.kind == Response(true) && e != current then 1 else 0
  }

  // The text parts of a chunk or body.
  method ExtractTexts(events: seq<Event>) returns (texts: seq<string>)
    ensures texts == Texts(events)
  {
    texts := [];
    for i := 0 to |events|
      invariant texts == Texts(events[..i])
    {
      assert events[..i + 1][..i] == events[..i];
      var text := "";
      if events[i].ContentBlockDelta? {
        var delta := events[i].delta;
        if delta.TextDelta? || delta.ThinkingDelta? {
          text := delta.text;
        }
      }
      if text != "" {
        texts := texts + [text];
      }
    }
    assert events[..|events|] == events;
  }

  method FinalizeCurrent(ghost f: Fold, timeline: seq<Entry>, current: Entry?)
    requires Stands(f, timeline, current)
    modifies if current == null then {} else {current}
    ensures Stands(Close(f), timeline, null)
  {
    CloseKeeps(f);
    if current != null {
      assert Views(timeline)[|timeline| - 1] == current.AsView();
      current.FinalizeSse();
      assert Views(timeline) == Close(f).timeline;
    }
  }

  // The sse_chunk branch of the loop.
  method ProcessChunk(ghost f: Fold, timeline: seq<Entry>, current: Entry?, entry: Entry) returns (current': Entry?)
    requires Stands(f, timeline, current) && entry !in timeline && entry.kind.SseChunk?
    modifies if current == null then {} else {current}
    ensures Stands(Step(f, entry.AsRecord()), timeline, current')
  {
    ghost var r := entry.AsRecord();
    StepKeeps(f, r);
    assert current != null ==> Views(timeline)[|timeline| - 1] == current.AsView();
    hide LoopInv, Finalize, Texts;
    if current != null && entry.tid == current.tid && entry.ts - current.ts <= MERGE_TIMEOUT {
      ghost var v := current.AsView();
      OpenHasParts(f);
      var texts := ExtractTexts(entry.events);
      current.Merge(entry.AsRecord(), texts);
      current' := current;
      assert Views(timeline) == SetLast(f.timeline, Absorb(v, r));
    } else {
      FinalizeCurrent(f, timeline, current);
      current' := null;
    }
  }

  lemma OpenHasParts(f: Fold)
    requires LoopInv(f)
    ensures f.open ==> f.timeline != [] && f.timeline[|f.timeline| - 1].parts.Just?
  {
  }

  // The request and response branches, once nothing is open.
  method Append(ghost f: Fold, timeline: seq<Entry>, entry: Entry) returns (timeline': seq<Entry>, current': Entry?)
    requires Stands(f, timeline, null) && entry !in timeline && entry.IsFresh() && !entry.kind.SseChunk?
    modifies entry
    ensures Stands(Step(f, old(entry.AsRecord())), timeline', current')
    ensures timeline' == timeline + [entry]
  {
    StepKeeps(f, entry.AsRecord());
    hide LoopInv;
    timeline', current' := timeline + [entry], null;
    if entry.kind == Response(true) {
      var initial := [];
      if entry.body.Just? && entry.body.value != "" {
        initial := ExtractTexts(entry.events);
      }
      entry.parts := Just(initial);
      current' := entry;
    }
    assert Views(timeline') == Views(timeline) + [entry.AsView()];
  }

  lemma CloseThenStep(f: Fold, r: Record)
    requires !r.kind.SseChunk?
    ensures Step(Close(f), r) == Step(f, r)
  {
  }

  // One turn of the loop.
  method Process(ghost f: Fold, timeline: seq<Entry>, current: Entry?, entry: Entry) returns (timeline': seq<Entry>, current': Entry?)
    requires Stands(f, timeline, current) && entry !in timeline && entry.IsFresh()
    modifies entry, if current == null then {} else {current}
    ensures Stands(Step(f, old(entry.AsRecord())), timeline', current')
    ensures timeline' == timeline || timeline' == timeline + [entry]
  {
    hide LoopInv, Step, Close, FinalizedOnce;
    if entry.kind.SseChunk? {
      timeline' := timeline;
      current' := ProcessChunk(f, timeline, current, entry);
    } else {
      CloseThenStep(f, entry.AsRecord());
      FinalizeCurrent(f, timeline, current);
      timeline', current' := Append(Close(f), timeline, entry);
    }
  }

  // The loop over the sorted entries.
  method MergeLoop(sorted: seq<Entry>) returns (timeline: seq<Entry>, current: Entry?)
    requires AllDifferent(sorted) && forall e :: e in sorted ==> e.IsFresh()
    modifies Objects(sorted)
    ensures Stands(FoldFrom(START, old(Records(sorted))), timeline, current)
    ensures forall e :: e in timeline ==> e in sorted
  {
    hide LoopInv, Step, FoldFrom;
    timeline := [];
    current := null;
    ghost var rs := Records(sorted);
    StartStands();
    for i := 0 to |sorted|
      invariant Stands(FoldFrom(START, rs[..i]), timeline, current)
      invariant forall e :: e in timeline ==> e in sorted[..i]
      invariant forall k :: i <= k < |sorted| ==> sorted[k].AsRecord() == rs[k] && sorted[k].IsFresh()
    {
      assert rs[..i + 1] == rs[..i] + [rs[i]];
      FoldSnoc(START, rs[..i], rs[i]);
      assert current != null ==> current in sorted[..i];
      timeline, current := Process(FoldFrom(START, rs[..i]), timeline, current, sorted[i]);
    }
    assert rs[..|sorted|] == rs;
  }

  lemma StartStands()
    ensures Stands(START, [], null) && FoldFrom(START, []) == START
  {
  }

  function OpenCount(vs: seq<View>): nat {
    if vs == [] then 0 else OpenCount(vs[..|vs| - 1]) + if vs[|vs| - 1].parts.Just? then 1 else 0
  }

  lemma OpenCountAt(vs: seq<View>, i: nat)
    requires i < |vs|
    ensures OpenCount(vs[..i + 1]) == OpenCount(vs[..i]) + if vs[i].parts.Just? then 1 else 0
    ensures OpenCount(vs[..0]) == 0
  {
    assert vs[..i + 1][..i] == vs[..i];
  }

  // The final pass finalizes, and counts, every response still open.
  method FinalizeRemaining(timeline: seq<Entry>) returns (sseCount: nat)
    requires AllDifferent(timeline) && forall e :: e in timeline && e.parts.Just? ==> e.kind.Response?
    modifies Objects(timeline)
    ensures Views(timeline) == FinalPass(old(Views(timeline))) && sseCount == OpenCount(old(Views(timeline)))
    ensures forall e :: e in timeline ==> e.finalized == old(e.finalized) + if old(e.parts.Just?) then 1 else 0
  {
    hide OpenCount;
    sseCount := 0;
    ghost var vs := Views(timeline);
    NoneOpen([]);
    assert vs[..0] == [];
    for i := 0 to |timeline|
      invariant sseCount == OpenCount(vs[..i])
      invariant forall k :: 0 <= k < i ==> timeline[k].AsView() == Finalize(vs[k])
      invariant forall k :: i <= k < |timeline| ==> timeline[k].AsView() == vs[k]
      invariant forall k :: i <= k < |timeline| && vs[k].parts.Just? ==> vs[k].kind.Response?
      invariant forall k :: 0 <= k < i ==> timeline[k].finalized == old(timeline[k].finalized) + if vs[k].parts.Just? then 1 else 0
      invariant forall k :: i <= k < |timeline| ==> timeline[k].finalized == old(timeline[k].finalized)
    {
      OpenCountAt(vs, i);
      assert timeline[i].AsView() == vs[i];
      if timeline[i].kind.Response? && timeline[i].parts.Just? {
        timeline[i].FinalizeSse();
        sseCount := sseCount + 1;
      }
    }
    assert vs[..|timeline|] == vs;
  }

  lemma {:induction false} NoneOpen(vs: seq<View>)
    requires forall i :: 0 <= i < |vs| ==> vs[i].parts == Nothing
    ensures OpenCount(vs) == 0 && FinalPass(vs) == vs
  {
    if vs != [] { NoneOpen(vs[..|vs| - 1]); }
  }

  // What the final pass meets.
  lemma AllClosed(rs: seq<Record>)
    ensures var vs := Close(FoldFrom(START, rs)).timeline;
      vs == Group(rs) && OpenCount(vs) == 0 && FinalPass(vs) == vs && forall i :: 0 <= i < |vs| ==> vs[i].parts == Nothing
  {
    TimelineIsGroup(rs);
    FinalPassIdle(rs);
    NoneOpen(Close(FoldFrom(START, rs)).timeline);
  }

  // group_by_timeline after sorting: the timeline, and how many responses the final
  // pass still had to finalize.
  method GroupByTimeline(sorted: seq<Entry>) returns (timeline: seq<Entry>, sseCount: nat)
    requires AllDifferent(sorted) && forall e :: e in sorted ==> e.IsFresh()
    modifies Objects(sorted)
    ensures Views(timeline) == Group(old(Records(sorted)))
    ensures AllDifferent(timeline) && (forall e :: e in timeline ==> e in sorted) && sseCount == 0
    ensures FinalizedOnce(timeline, null)
  {
    hide Group, FoldFrom, Close, LoopInv;
    ghost var rs := Records(sorted);
    AllClosed(rs);
    ghost var f := FoldFrom(START, rs);
    var current;
    timeline, current := MergeLoop(sorted);
    assert current != null ==> current in sorted;
    FinalizeCurrent(f, timeline, current);
    assert Objects(timeline) <= Objects(sorted);
    forall e | e in timeline ensures e.parts == Nothing {
      var i :| 0 <= i < |timeline| && timeline[i] == e;
      assert Views(timeline)[i] == e.AsView();
    }
    sseCount := FinalizeRemaining(timeline);
  }
}
