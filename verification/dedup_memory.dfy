// What the deduplication of file opens promises, key by key and without its table: when
// an open is printed at once, and what is left out of a sweep.
module DedupMemory {
  import opened FileDedup

  datatype Maybe<T> = Nothing | Just(value: T)

  // ts lies within the 60 seconds before now (of the unsigned 64-bit difference).
  predicate Recent(now: nat, ts: nat) {
    (now - ts) % 0x1_0000_0000_0000_0000 <= 60_000_000_000
  }

  // For timestamps in order this is the plain difference; one stamped later counts as long
  // past.
  lemma RecentIs(now: nat, ts: nat)
    requires now < 0x1_0000_0000_0000_0000 && ts < 0x1_0000_0000_0000_0000
    ensures ts <= now ==> (Recent(now, ts) <==> now - ts <= 60_000_000_000)
    ensures ts > now ==> (Recent(now, ts) <==> ts - now >= 0x1_0000_0000_0000_0000 - 60_000_000_000)
  {
  }

  // ---- What a sweep keeps ----

  lemma SweptIs(w: Sweep, s: seq<Entry>, e: Entry)
    ensures e in Swept(w, s, 0) <==> e in s && !Dead(w, e)
    ensures e in Removed(w, s, 0) <==> e in s && Dead(w, e)
  {
    SweptSplits(w, s, 0);
    var kept, gone := Swept(w, s, 0), Removed(w, s, 0);
    assert multiset(s)[e] == multiset(kept)[e] + multiset(gone)[e];
    assert e in s <==> e in multiset(s);
    assert e in kept <==> e in multiset(kept);
    assert e in gone <==> e in multiset(gone);
  }

  // An open keeps exactly the entries of the last 60 seconds, an exit exactly those of
  // other processes.
  lemma WindowKeeps(s: seq<Entry>, now: nat, e: Entry)
    ensures e in Swept(Window(now), s, 0) <==> e in s && Recent(now, e.ts)
  {
    SweptIs(Window(now), s, e);
  }

  lemma ExitKeeps(s: seq<Entry>, pid: int, e: Entry)
    ensures e in ExitStep(s, pid).0 <==> e in s && e.file.pid != pid
  {
    SweptIs(ExitOf(pid), s, e);
  }

  // ---- What is printed of what is removed ----

  lemma SnocCount(s: seq<Entry>, x: Entry, e: Entry)
    ensures multiset(s + [x])[e] == multiset(s)[e] + if e == x then 1 else 0
  {
  }

  lemma {:induction false} ReportedIs(s: seq<Entry>, e: Entry)
    ensures multiset(Reported(s))[e] == if e.count >= 2 then multiset(s)[e] else 0
  {
    hide Reported;
    if s == [] {
      NoneReported();
    } else {
      var front, last := s[..|s| - 1], s[|s| - 1];
      ReportedIs(front, e);
      ReportedNext(front, last);
      SnocCount(front, last, e);
      SnocCount(Reported(front), last, e);
      assert s == front + [last];
    }
  }

  // How often the log has the aggregate line of an entry.
  function AggregateCount(lines: seq<Line>, e: Entry): nat {
    if lines == [] then 0
    else
      var l := lines[|lines| - 1];
      AggregateCount(lines[..|lines| - 1], e) + if l.Aggregate? && l.entry == e then 1 else 0
  }

  lemma {:induction false} AggregatesAre(w: Sweep, s: seq<Entry>, e: Entry)
    ensures AggregateCount(Aggregates(w, s), e) == multiset(s)[e]
  {
    if s != [] {
      var front, last := s[..|s| - 1], s[|s| - 1];
      AggregatesAre(w, front, e);
      assert Aggregates(w, s)[..|s| - 1] == Aggregates(w, front);
      assert s == front + [last];
    }
  }

  lemma CountOnce(s: seq<Entry>, e: Entry)
    requires TableOk(s)
    ensures multiset(s)[e] == if e in s then 1 else 0
  {
    if e in s {
      var i :| 0 <= i < |s| && s[i] == e;
      assert s == s[..i] + [e] + s[i + 1..];
      assert e !in s[..i] && e !in s[i + 1..];
    }
  }

  lemma AggregateCountNext(lines: seq<Line>, l: Line, e: Entry)
    requires l.Single?
    ensures AggregateCount(lines + [l], e) == AggregateCount(lines, e)
  {
    assert (lines + [l])[..|lines|] == lines;
  }

  lemma RemovedOnce(s: seq<Entry>, now: nat, e: Entry)
    requires TableOk(s)
    ensures multiset(Removed(Window(now), s, 0))[e] == if e in s && !Recent(now, e.ts) then 1 else 0
  {
    hide TableOk, Swept, Removed;
    var w := Window(now);
    SweptIs(w, s, e);
    CountOnce(s, e);
    SweptSplits(w, s, 0);
    assert multiset(s)[e] == multiset(Swept(w, s, 0))[e] + multiset(Removed(w, s, 0))[e];
    assert e in Swept(w, s, 0) <==> e in multiset(Swept(w, s, 0));
    assert e in Removed(w, s, 0) <==> e in multiset(Removed(w, s, 0));
  }

  // An open prints the aggregate of each entry it drops that stands for more than one
  // open, once, and no other aggregate.
  lemma OpenPrints(s: seq<Entry>, hash: nat, file: File, now: nat, e: Entry)
    requires TableOk(s)
    ensures AggregateCount(OpenStep(s, hash, file, now).1, e)
      == if e in s && !Recent(now, e.ts) && e.count >= 2 then 1 else 0
  {
    hide TableOk, Swept, Removed, Reported, Aggregates, AggregateCount, Recent, Record;
    var w := Window(now);
    var gone := Removed(w, s, 0);
    RemovedOnce(s, now, e);
    ReportedIs(gone, e);
    AggregatesAre(w, Reported(gone), e);
    AggregateCountNext(Aggregates(w, Reported(gone)), Single(hash, file, now), e);
    assert Aggregates(w, Reported(gone)) + [] == Aggregates(w, Reported(gone));
  }

  // The line of the open itself comes last, after the aggregates, which name the window.
  lemma OpenOrder(s: seq<Entry>, hash: nat, file: File, now: nat, i: nat)
    requires i < |OpenStep(s, hash, file, now).1|
    ensures var lines := OpenStep(s, hash, file, now).1;
      if lines[i].Single? then lines[i] == Single(hash, file, now) && i == |lines| - 1
      else lines[i].why == Window(now)
  {
    hide Swept, Removed, Reported, Record;
  }

  lemma ExitOrder(s: seq<Entry>, pid: int, i: nat)
    requires i < |ExitStep(s, pid).1|
    ensures var lines := ExitStep(s, pid).1; lines[i].Aggregate? && lines[i].why == ExitOf(pid)
  {
    hide Swept, DeadOnes, Reported;
  }

  lemma {:induction false} DeadOnesCount(w: Sweep, s: seq<Entry>, e: Entry)
    ensures multiset(DeadOnes(w, s))[e] == if Dead(w, e) then multiset(s)[e] else 0
  {
    if s != [] {
      var front, last := s[..|s| - 1], s[|s| - 1];
      DeadOnesCount(w, front, e);
      assert s == front + [last];
    }
  }

  // An exit prints the aggregate of each entry of the process that stands for more than
  // one open, once, and nothing else.
  lemma ExitPrints(s: seq<Entry>, pid: int, e: Entry)
    requires TableOk(s)
    ensures AggregateCount(ExitStep(s, pid).1, e) == if e in s && e.file.pid == pid && e.count >= 2 then 1 else 0
  {
    var w := ExitOf(pid);
    CountOnce(s, e);
    DeadOnesCount(w, s, e);
    ReportedIs(DeadOnes(w, s), e);
    AggregatesAre(w, Reported(DeadOnes(w, s)), e);
  }

  // ---- What is remembered of a key ----

  // The keys that an open at now finds remembered.
  ghost function Remembered(s: seq<Entry>, now: nat): set<nat> {
    set e | e in s && Recent(now, e.ts) :: e.hash
  }

  // What a run leaves of one key: the count and time of its opens, from the first that
  // found room, as long as each came within the window and every open of another key did
  // too, and the process has not exited.
  ghost function Memory(es: seq<Event>, hash: nat): Maybe<Entry> {
    if es == [] then Nothing
    else
      var front := es[..|es| - 1];
      var m := Memory(front, hash);
      match es[|es| - 1]
      case Open(h, file, ts) =>
        var kept := if m.Just? && Recent(ts, m.value.ts) then m else Nothing;
        if h != hash then kept
        else if kept.Just? then Just(kept.value.(count := (kept.value.count + 1) % 0x1_0000_0000, ts := ts))
        else if |Remembered(RunTable(front), ts)| < 1024 then Just(Entry(hash, ts, 1, file))
        else Nothing
      case Exit(pid) => if m.Just? && m.value.file.pid == pid then Nothing else m
  }

  ghost predicate Shows(s: seq<Entry>, hash: nat, m: Maybe<Entry>) {
    && (m.Just? ==> m.value in s && m.value.hash == hash)
    && (m.Nothing? ==> forall e :: e in s ==> e.hash != hash)
  }

  // Distinct keys: as many keys as entries.
  lemma {:induction false} KeysCount(s: seq<Entry>)
    requires TableOk(s)
    ensures |set e | e in s :: e.hash| == |s|
  {
    var keys := set e | e in s :: e.hash;
    if s == [] {
      assert keys == {};
    } else {
      var front, last := s[..|s| - 1], s[|s| - 1];
      KeysCount(front);
      var before := set e | e in front :: e.hash;
      assert s == front + [last];
      assert last in s;
      assert keys == before + {last.hash};
      assert last.hash !in before;
    }
  }

  lemma RememberedCount(s: seq<Entry>, now: nat)
    requires TableOk(s)
    ensures |Remembered(s, now)| == |Swept(Window(now), s, 0)|
  {
    var t := Swept(Window(now), s, 0);
    SweptOk(Window(now), s, 0);
    KeysCount(t);
    var keys := set e | e in t :: e.hash;
    forall h ensures h in keys <==> h in Remembered(s, now) {
      if h in keys {
        var e :| e in t && e.hash == h;
        WindowKeeps(s, now, e);
      }
      if h in Remembered(s, now) {
        var e :| e in s && Recent(now, e.ts) && e.hash == h;
        WindowKeeps(s, now, e);
      }
    }
    assert keys == Remembered(s, now);
  }

  lemma SweptShows(s: seq<Entry>, now: nat, hash: nat, m: Maybe<Entry>)
    requires TableOk(s) && Shows(s, hash, m)
    ensures Shows(Swept(Window(now), s, 0), hash, if m.Just? && Recent(now, m.value.ts) then m else Nothing)
  {
    forall e { WindowKeeps(s, now, e); }
    if m.Just? { forall e | e in s && e.hash == hash ensures e == m.value { SameKey(s, e, m.value); } }
  }

  lemma SameKey(s: seq<Entry>, e: Entry, f: Entry)
    requires TableOk(s) && e in s && f in s && e.hash == f.hash
    ensures e == f
  {
  }

  lemma RecordShows(t: seq<Entry>, h: nat, file: File, now: nat, hash: nat, m: Maybe<Entry>)
    requires TableOk(t) && Shows(t, hash, m)
    ensures Shows(Record(t, h, file, now).table, hash,
      if h != hash then m
      else if m.Just? then Just(m.value.(count := (m.value.count + 1) % 0x1_0000_0000, ts := now))
      else if |t| < 1024 then Just(Entry(hash, now, 1, file))
      else Nothing)
    ensures h == hash ==> (Record(t, h, file, now).report <==> m.Nothing?)
  {
    var r := Record(t, h, file, now).table;
    var i := IndexOf(t, h);
    if i >= 0 {
      assert t[i] in t && r[i] in r;
      if m.Just? && h == hash { SameKey(t, t[i], m.value); }
      if m.Just? && h != hash {
        var k :| 0 <= k < |t| && t[k] == m.value;
        assert r[k] == m.value;
      }
      forall e | e in r ensures e == r[i] || e in t {
        var k :| 0 <= k < |r| && r[k] == e;
      }
    } else if |t| < 1024 {
      assert r[|t|] in r;
      if m.Just? {
        var k :| 0 <= k < |t| && t[k] == m.value;
        assert r[k] == m.value;
      }
    }
  }

  // In every run the table shows of each key exactly what is remembered of it.
  lemma {:induction false} TableShowsMemory(es: seq<Event>, hash: nat)
    ensures Shows(RunTable(es), hash, Memory(es, hash))
  {
    if es != [] {
      var front := es[..|es| - 1];
      var s, m := RunTable(front), Memory(front, hash);
      TableShowsMemory(front, hash);
      RunOk(front);
      match es[|es| - 1]
      case Open(h, file, ts) =>
        SweptShows(s, ts, hash, m);
        SweptOk(Window(ts), s, 0);
        RememberedCount(s, ts);
        RecordShows(Swept(Window(ts), s, 0), h, file, ts, hash, if m.Just? && Recent(ts, m.value.ts) then m else Nothing);
      case Exit(pid) =>
        forall e { ExitKeeps(s, pid, e); }
        if m.Just? { forall e | e in s && e.hash == hash ensures e == m.value { SameKey(s, e, m.value); } }
    }
  }

  // The promise: an open is printed at once, with count 1, exactly when nothing is
  // remembered of its key within the last 60 seconds.
  lemma PrintedAtOnce(es: seq<Event>, hash: nat, file: File, ts: nat)
    ensures var lines := OpenStep(RunTable(es), hash, file, ts).1;
      Single(hash, file, ts) in lines <==> !(Memory(es, hash).Just? && Recent(ts, Memory(es, hash).value.ts))
  {
    var s, m := RunTable(es), Memory(es, hash);
    TableShowsMemory(es, hash);
    RunOk(es);
    SweptShows(s, ts, hash, m);
    SweptOk(Window(ts), s, 0);
    RecordShows(Swept(Window(ts), s, 0), hash, file, ts, hash, if m.Just? && Recent(ts, m.value.ts) then m else Nothing);
    var out := Aggregates(Window(ts), Reported(Removed(Window(ts), s, 0)));
    forall l | l in out ensures l.Aggregate? {}
    var r := Record(Swept(Window(ts), s, 0), hash, file, ts);
    if r.report { assert (out + [Single(hash, file, ts)])[|out|] == Single(hash, file, ts); }
  }

  // es[i] is the last open of the key, it left something, every open since came within 60
  // seconds of it, and its process has not exited.
  ghost predicate LastOpen(es: seq<Event>, hash: nat, i: nat) {
    && i < |es| && es[i].Open? && es[i].hash == hash && Memory(es[..i + 1], hash).Just?
    && forall j :: i < j < |es| ==>
        if es[j].Open? then es[j].hash != hash && Recent(es[j].ts, es[i].ts)
        else es[j].pid != Memory(es[..i + 1], hash).value.file.pid
  }

  lemma {:induction false} MemoryOfLast(es: seq<Event>, hash: nat, i: nat)
    requires LastOpen(es, hash, i)
    ensures Memory(es, hash) == Memory(es[..i + 1], hash) && Memory(es, hash).value.ts == es[i].ts
    decreases |es|
  {
    if i == |es| - 1 {
      assert es[..i + 1] == es;
    } else {
      var front := es[..|es| - 1];
      assert front[..i + 1] == es[..i + 1];
      assert forall j :: i < j < |front| ==> front[j] == es[j];
      MemoryOfLast(front, hash, i);
    }
  }

  lemma {:induction false} LastOfMemory(es: seq<Event>, hash: nat) returns (i: nat)
    requires Memory(es, hash).Just?
    ensures LastOpen(es, hash, i)
    decreases |es|
  {
    var front, e := es[..|es| - 1], es[|es| - 1];
    if e.Open? && e.hash == hash {
      i := |es| - 1;
      assert es[..i + 1] == es;
    } else {
      i := LastOfMemory(front, hash);
      MemoryOfLast(front, hash, i);
      assert front[..i + 1] == es[..i + 1];
    }
  }

  // In terms of the events alone: a remembered key has a last open that is still recent.
  lemma RememberedIff(es: seq<Event>, hash: nat)
    ensures Memory(es, hash).Just? <==> exists i :: LastOpen(es, hash, i)
  {
    if Memory(es, hash).Just? {
      var i := LastOfMemory(es, hash);
    }
    if i :| LastOpen(es, hash, i) {
      MemoryOfLast(es, hash, i);
    }
  }

  // An open leaves something of its key unless 1024 other keys are remembered.
  lemma LeavesSomething(es: seq<Event>, hash: nat, file: File, ts: nat)
    ensures var m := Memory(es, hash);
      Memory(es + [Open(hash, file, ts)], hash).Just?
      <==> (m.Just? && Recent(ts, m.value.ts)) || |Remembered(RunTable(es), ts)| < 1024
  {
    assert (es + [Open(hash, file, ts)])[..|es|] == es;
  }

  // Two files that share a key are one to the table: right after an open of one that is
  // remembered, an open of the other within 60 seconds is not printed.
  lemma SharedKeyHides(es: seq<Event>, hash: nat, f: File, g: File, ts: nat, now: nat)
    requires Recent(now, ts) && Memory(es + [Open(hash, f, ts)], hash).Just?
    ensures Single(hash, g, now) !in OpenStep(RunTable(es + [Open(hash, f, ts)]), hash, g, now).1
  {
    assert (es + [Open(hash, f, ts)])[..|es|] == es;
    PrintedAtOnce(es + [Open(hash, f, ts)], hash, g, now);
  }
}
