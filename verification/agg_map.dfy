// The kernel's aggregation map with no concurrent updates: update_agg_map of
// bpf/process_ext/bpf_common.h, and the flushes of bpf/process_ext/map_flush.h,
// which walk the map by key while deleting from it.
module AggMap {
  import opened Search

  const PID_FLUSH_BATCH := 256

  datatype Key = Key(pid: nat, eventType: nat, detail: string)

  datatype Value = Value(count: nat, bytes: nat, firstTs: nat, lastTs: nat, comm: string)

  datatype Entry = Entry(key: Key, val: Value)

  // The zeroed struct from which every walk starts. Event types start at 10, so no
  // update ever uses it.
  const ZERO_KEY := Key(0, 0, "")

  // ---- The BPF hash map: entries in iteration order ----

  function IndexOf(m: seq<Entry>, key: Key): (r: int)
    ensures -1 <= r < |m|
    ensures r >= 0 ==> m[r].key == key
    ensures r < 0 ==> forall i :: 0 <= i < |m| ==> m[i].key != key
  {
    FirstWhere(m, (e: Entry) => e.key == key)
  }

  datatype Cursor = Found(key: Key) | End

  // bpf_map_get_next_key: an absent key restarts at the first.
  function NextKey(m: seq<Entry>, key: Key): Cursor {
    var i := IndexOf(m, key) + 1;
    if i < |m| then Found(m[i].key) else End
  }

  function DeleteAt(m: seq<Entry>, i: nat): (r: seq<Entry>)
    requires i < |m|
    ensures |r| == |m| - 1
  {
    m[..i] + m[i + 1..]
  }

  function DeleteKey(m: seq<Entry>, key: Key): seq<Entry> {
    var i := IndexOf(m, key);
    if i < 0 then m else DeleteAt(m, i)
  }

  function DeleteAll(m: seq<Entry>, es: seq<Entry>): seq<Entry>
    decreases |es|
  {
    if es == [] then m else DeleteAll(DeleteKey(m, es[0].key), es[1..])
  }

  // Where a new key lands among n others.
  function Landing(at: nat, n: nat): (r: nat)
    ensures r <= n
  {
    at % (n + 1)
  }

  // update_agg_map with count 1. A new key lands wherever its bucket puts it (at).
  datatype Update = Update(key: Key, bytes: nat, now: nat, comm: string, at: nat)

  datatype UpdateResult = UpdateResult(entries: seq<Entry>, overflowed: bool)

  function Apply(m: seq<Entry>, cap: nat, u: Update): UpdateResult {
    var i := IndexOf(m, u.key);
    if i >= 0 then
      var v := m[i].val;
      UpdateResult(m[i := Entry(u.key, Value(v.count + 1, v.bytes + u.bytes, v.firstTs, u.now, u.comm))], false)
    else if |m| < cap then
      var at := Landing(u.at, |m|);
      UpdateResult(Inserted(m, at, Entry(u.key, Value(1, u.bytes, u.now, u.now, u.comm))), false)
    else
      UpdateResult(m, true)
  }

  // ---- flush_agg_map ----

  // The walk when the next entry to visit has index i: the map left and the entries
  // printed. Deleting the cursor's entry sends the walk back to the start.
  function FlushFrom(m: seq<Entry>, i: nat): (seq<Entry>, seq<Entry>)
    decreases |m|, |m| - i
  {
    if i >= |m| then (m, [])
    else if m[i].val.count > 0 then
      var (rest, printed) := FlushFrom(DeleteAt(m, i), 0);
      (rest, [m[i]] + printed)
    else FlushFrom(m, i + 1)
  }

  lemma FlushFromEnd(m: seq<Entry>, i: nat)
    requires i >= |m|
    ensures FlushFrom(m, i) == (m, [])
  {
  }

  lemma FlushFromStep(m: seq<Entry>, i: nat)
    requires i < |m|
    ensures m[i].val.count == 0 ==> FlushFrom(m, i) == FlushFrom(m, i + 1)
    ensures m[i].val.count > 0 ==>
      var (rest, printed) := FlushFrom(DeleteAt(m, i), 0); FlushFrom(m, i) == (rest, [m[i]] + printed)
  {
  }

  function FlushAll(m: seq<Entry>): (seq<Entry>, seq<Entry>) {
    FlushFrom(m, IndexOf(m, ZERO_KEY) + 1)
  }

  function Positive(m: seq<Entry>): seq<Entry> {
    if m == [] then []
    else if m[|m| - 1].val.count > 0 then Positive(m[..|m| - 1]) + [m[|m| - 1]]
    else Positive(m[..|m| - 1])
  }

  function Zero(m: seq<Entry>): seq<Entry> {
    if m == [] then []
    else if m[|m| - 1].val.count > 0 then Zero(m[..|m| - 1])
    else Zero(m[..|m| - 1]) + [m[|m| - 1]]
  }

  lemma Split(m: seq<Entry>, i: nat)
    requires i < |m|
    ensures m == m[..i] + [m[i]] + m[i + 1..]
  {
  }

  lemma PositiveSnoc(m: seq<Entry>, e: Entry)
    ensures Positive(m + [e]) == Positive(m) + if e.val.count > 0 then [e] else []
    ensures Zero(m + [e]) == Zero(m) + if e.val.count > 0 then [] else [e]
  {
    assert (m + [e])[..|m|] == m;
  }

  lemma {:induction false} PositiveConcat(a: seq<Entry>, b: seq<Entry>)
    ensures Positive(a + b) == Positive(a) + Positive(b)
    ensures Zero(a + b) == Zero(a) + Zero(b)
  {
    if b == [] {
      assert a + b == a;
    } else {
      var b', e := b[..|b| - 1], b[|b| - 1];
      PositiveConcat(a, b');
      PositiveSnoc(a + b', e);
      assert a + b == a + b' + [e];
    }
  }

  lemma PositiveOne(e: Entry)
    requires e.val.count > 0
    ensures Positive([e]) == [e] && Zero([e]) == []
  {
    assert [e][..0] == [];
  }

  lemma {:induction false} NonePositive(m: seq<Entry>)
    requires Positive(m) == []
    ensures Zero(m) == m
  {
    if m != [] {
      NonePositive(m[..|m| - 1]);
      assert m == m[..|m| - 1] + [m[|m| - 1]];
    }
  }

  // Taking out a positive entry.
  lemma DeletePositive(m: seq<Entry>, i: nat)
    requires i < |m| && m[i].val.count > 0
    ensures Zero(DeleteAt(m, i)) == Zero(m)
    ensures Positive(m) == Positive(m[..i]) + [m[i]] + Positive(m[i + 1..])
    ensures Positive(DeleteAt(m, i)) == Positive(m[..i]) + Positive(m[i + 1..])
  {
    var a, e, b := m[..i], m[i], m[i + 1..];
    Split(m, i);
    PositiveConcat(a, [e]);
    PositiveConcat(a + [e], b);
    PositiveConcat(a, b);
    PositiveOne(e);
  }

  lemma PositiveTail(m: seq<Entry>, i: nat)
    requires i < |m|
    ensures Positive(m[i..]) == (if m[i].val.count > 0 then [m[i]] else []) + Positive(m[i + 1..])
  {
    assert m[i..] == [m[i]] + m[i + 1..];
    PositiveConcat([m[i]], m[i + 1..]);
    assert [m[i]][..0] == [];
  }

  // From a point with nothing to print before it, the walk prints every positive
  // entry once, in map order, and leaves the others.
  lemma {:induction false} FlushFromClear(m: seq<Entry>, i: nat)
    requires i <= |m| && Positive(m[..i]) == []
    ensures FlushFrom(m, i) == (Zero(m), Positive(m))
    decreases |m|, |m| - i
  {
    if i == |m| {
      assert m[..i] == m;
      NonePositive(m);
    } else if m[i].val.count > 0 {
      FlushFromClear(DeleteAt(m, i), 0);
      DeletePositive(m, i);
      assert Positive(m) == [m[i]] + Positive(DeleteAt(m, i));
    } else {
      assert m[..i + 1][..i] == m[..i];
      FlushFromClear(m, i + 1);
    }
  }

  lemma FlushFromStart(m: seq<Entry>)
    ensures FlushFrom(m, 0) == (Zero(m), Positive(m))
  {
    FlushFromClear(m, 0);
  }

  lemma {:induction false} FlushFromBlocked(m: seq<Entry>, i: nat)
    requires i <= |m| && Positive(m[i..]) == []
    ensures FlushFrom(m, i) == (m, [])
    decreases |m| - i
  {
    if i < |m| {
      PositiveTail(m, i);
      FlushFromBlocked(m, i + 1);
    }
  }

  lemma {:induction false} FlushFromMiddle(m: seq<Entry>, i: nat)
    requires i <= |m| && Positive(m[i..]) != []
    ensures FlushFrom(m, i).0 == Zero(m)
    ensures multiset(FlushFrom(m, i).1) == multiset(Positive(m))
    decreases |m| - i
  {
    PositiveTail(m, i);
    if m[i].val.count > 0 {
      FlushFromClear(DeleteAt(m, i), 0);
      DeletePositive(m, i);
    } else {
      FlushFromMiddle(m, i + 1);
    }
  }

  // The walk drains the map exactly when it can start: the zero key is absent, or
  // something to print lies beyond it, or there is nothing to print.
  lemma FlushAllExact(m: seq<Entry>)
    ensures var z := IndexOf(m, ZERO_KEY);
      if z < 0 || Positive(m[z + 1..]) != [] || Positive(m) == []
      then FlushAll(m).0 == Zero(m) && multiset(FlushAll(m).1) == multiset(Positive(m))
      else FlushAll(m) == (m, [])
  {
    hide Positive, Zero, FlushFrom;
    var z := IndexOf(m, ZERO_KEY);
    if z < 0 {
      FlushFromStart(m);
    } else if Positive(m[z + 1..]) != [] {
      FlushFromMiddle(m, z + 1);
    } else {
      FlushFromBlocked(m, z + 1);
      if Positive(m) == [] { NonePositive(m); }
    }
  }

  ghost predicate DistinctKeys(m: seq<Entry>) {
    forall i, j :: 0 <= i < j < |m| ==> m[i].key != m[j].key
  }

  // What updates and flushes keep.
  ghost predicate MapOk(m: seq<Entry>, cap: nat) {
    && |m| <= cap && DistinctKeys(m)
    && forall i :: 0 <= i < |m| ==> m[i].val.count >= 1 && m[i].key != ZERO_KEY
  }

  lemma {:induction false} AllPositive(m: seq<Entry>)
    requires forall i :: 0 <= i < |m| ==> m[i].val.count >= 1
    ensures Positive(m) == m && Zero(m) == []
  {
    if m != [] {
      var front, last := m[..|m| - 1], m[|m| - 1];
      forall i | 0 <= i < |front| ensures front[i].val.count >= 1 { assert front[i] == m[i]; }
      AllPositive(front);
      assert front + [last] == m;
    }
  }

  lemma MapOkShows(m: seq<Entry>, cap: nat)
    requires MapOk(m, cap)
    ensures IndexOf(m, ZERO_KEY) == -1 && forall i :: 0 <= i < |m| ==> m[i].val.count >= 1
  {
  }

  // On every map the updates can build, a flush prints each entry exactly once, in
  // iteration order, and leaves the map empty.
  lemma FlushAllDrains(m: seq<Entry>, cap: nat)
    requires MapOk(m, cap)
    ensures FlushAll(m) == ([], m)
  {
    hide MapOk, IndexOf, FlushFrom, Positive, Zero;
    MapOkShows(m, cap);
    FlushFromStart(m);
    AllPositive(m);
  }

  // ---- flush_pid_from_agg_map ----

  function OfPid(m: seq<Entry>, pid: nat): seq<Entry> {
    if m == [] then []
    else if m[|m| - 1].key.pid == pid then OfPid(m[..|m| - 1], pid) + [m[|m| - 1]]
    else OfPid(m[..|m| - 1], pid)
  }

  // The keys deleted after the walk: the first 256 of the PID.
  function Batch(es: seq<Entry>): seq<Entry> {
    if |es| <= PID_FLUSH_BATCH then es else es[..PID_FLUSH_BATCH]
  }

  // The walk deletes nothing, so it visits everything beyond the zero key.
  function FlushPid(m: seq<Entry>, pid: nat): (seq<Entry>, seq<Entry>) {
    var mine := OfPid(m[IndexOf(m, ZERO_KEY) + 1..], pid);
    (DeleteAll(m, Batch(mine)), Positive(mine))
  }

  function Total(m: seq<Entry>): nat {
    if m == [] then 0 else Total(m[..|m| - 1]) + m[|m| - 1].val.count
  }

  lemma {:induction false} TotalConcat(a: seq<Entry>, b: seq<Entry>)
    ensures Total(a + b) == Total(a) + Total(b)
  {
    if b == [] {
      assert a + b == a;
    } else {
      TotalConcat(a, b[..|b| - 1]);
      assert (a + b)[..|a + b| - 1] == a + b[..|b| - 1];
    }
  }

  lemma TotalOne(e: Entry)
    ensures Total([e]) == e.val.count
  {
    assert [e][..0] == [];
  }

  lemma TotalThree(a: seq<Entry>, e: Entry, b: seq<Entry>)
    ensures Total(a + [e] + b) == Total(a) + e.val.count + Total(b)
  {
    hide Total;
    TotalConcat(a, [e]);
    TotalConcat(a + [e], b);
    TotalOne(e);
  }

  lemma TotalDeleteAt(m: seq<Entry>, i: nat)
    requires i < |m|
    ensures Total(DeleteAt(m, i)) == Total(m) - m[i].val.count
  {
    hide Total;
    TotalThree(m[..i], m[i], m[i + 1..]);
    TotalConcat(m[..i], m[i + 1..]);
    Split(m, i);
  }

  lemma IndexIs(m: seq<Entry>, i: nat)
    requires DistinctKeys(m) && i < |m|
    ensures IndexOf(m, m[i].key) == i
  {
  }

  lemma DeleteKeyOf(m: seq<Entry>, e: Entry)
    requires DistinctKeys(m) && e in m
    ensures var m' := DeleteKey(m, e.key);
      && DistinctKeys(m') && |m'| <= |m| && Total(m') == Total(m) - e.val.count
      && (forall x :: x in m' <==> x in m && x != e)
  {
    var i :| 0 <= i < |m| && m[i] == e;
    IndexIs(m, i);
    TotalDeleteAt(m, i);
    DeleteAtIn(m, i);
  }

  lemma HeadAndRest(es: seq<Entry>)
    requires es != [] && DistinctKeys(es)
    ensures Total(es) == es[0].val.count + Total(es[1..])
    ensures DistinctKeys(es[1..]) && es[0] !in es[1..]
    ensures forall x :: x in es <==> x == es[0] || x in es[1..]
  {
    assert es == [es[0]] + es[1..];
    TotalConcat([es[0]], es[1..]);
    TotalOne(es[0]);
  }

  // Deleting listed entries takes away exactly what they count.
  lemma {:induction false} DeleteAllTotal(m: seq<Entry>, es: seq<Entry>)
    requires DistinctKeys(m) && DistinctKeys(es) && forall e :: e in es ==> e in m
    ensures Total(DeleteAll(m, es)) == Total(m) - Total(es)
    ensures DistinctKeys(DeleteAll(m, es)) && |DeleteAll(m, es)| <= |m|
    ensures forall e :: e in DeleteAll(m, es) <==> e in m && e !in es
    decreases |es|
  {
    if es != [] {
      HeadAndRest(es);
      DeleteKeyOf(m, es[0]);
      DeleteAllTotal(DeleteKey(m, es[0].key), es[1..]);
    }
  }

  lemma DeleteAtIn(m: seq<Entry>, i: nat)
    requires DistinctKeys(m) && i < |m|
    ensures DistinctKeys(DeleteAt(m, i))
    ensures forall e :: e in DeleteAt(m, i) <==> e in m && e != m[i]
  {
    var r := DeleteAt(m, i);
    forall e | e in m && e != m[i] ensures e in r {
      var k :| 0 <= k < |m| && m[k] == e;
      assert r[if k < i then k else k - 1] == e;
    }
    forall e | e in r ensures e in m && e != m[i] {
      var k :| 0 <= k < |r| && r[k] == e;
      assert m[if k < i then k else k + 1] == e;
      assert m[if k < i then k else k + 1].key != m[i].key;
    }
  }

  lemma DeletedKeyGone(m: seq<Entry>, i: nat)
    requires DistinctKeys(m) && i < |m|
    ensures IndexOf(DeleteAt(m, i), m[i].key) == -1
  {
    var r := DeleteAt(m, i);
    forall k | 0 <= k < |r| ensures r[k].key != m[i].key {
      assert r[k] == m[if k < i then k else k + 1];
    }
  }

  lemma {:induction false} OfPidIn(m: seq<Entry>, pid: nat)
    requires DistinctKeys(m)
    ensures DistinctKeys(OfPid(m, pid))
    ensures forall e :: e in OfPid(m, pid) <==> e in m && e.key.pid == pid
  {
    if m != [] {
      var front, last := m[..|m| - 1], m[|m| - 1];
      OfPidIn(front, pid);
      assert m == front + [last];
      forall k | 0 <= k < |OfPid(front, pid)| ensures OfPid(front, pid)[k].key != last.key {
        assert OfPid(front, pid)[k] in front;
      }
    }
  }

  lemma FlushPidShape(m: seq<Entry>, cap: nat, pid: nat)
    requires MapOk(m, cap)
    ensures var mine := OfPid(m, pid);
      && FlushPid(m, pid) == (DeleteAll(m, Batch(mine)), mine)
      && DistinctKeys(mine) && (forall e :: e in mine <==> e in m && e.key.pid == pid)
      && (forall i :: 0 <= i < |mine| ==> mine[i].val.count >= 1)
  {
    hide MapOk, IndexOf, OfPid, DeleteAll, Positive, Zero, Batch;
    var mine := OfPid(m, pid);
    MapOkShows(m, cap);
    WithinCap(m, cap);
    assert m[IndexOf(m, ZERO_KEY) + 1..] == m;
    OfPidIn(m, pid);
    forall i | 0 <= i < |mine| ensures mine[i].val.count >= 1 { assert mine[i] in m; }
    AllPositive(mine);
  }

  // A PID flush prints every entry of the PID once, in iteration order, and removes
  // exactly the first 256 printed; with at most 256, every entry of the PID.
  lemma FlushPidExact(m: seq<Entry>, cap: nat, pid: nat)
    requires MapOk(m, cap)
    ensures var (rest, printed) := FlushPid(m, pid);
      && printed == OfPid(m, pid) && MapOk(rest, cap)
      && (forall e :: e in printed <==> e in m && e.key.pid == pid)
      && (forall e :: e in rest <==> e in m && e !in printed[..if |printed| <= 256 then |printed| else 256])
      && (|printed| <= 256 ==> forall e :: e in rest <==> e in m && e.key.pid != pid)
  {
    hide OfPid, Positive, DeleteAll, FlushPid, Total;
    FlushPidShape(m, cap, pid);
    var gone := Batch(OfPid(m, pid));
    forall e | e in gone ensures e in m { assert e in OfPid(m, pid); }
    DeleteAllTotal(m, gone);
    var rest := DeleteAll(m, gone);
    forall i | 0 <= i < |rest| ensures rest[i].val.count >= 1 && rest[i].key != ZERO_KEY { assert rest[i] in m; }
  }

  // Its counts move from map to output exactly when the PID has at most 256 keys;
  // with more, the surplus is printed and stays, to be printed again.
  lemma FlushPidConserves(m: seq<Entry>, cap: nat, pid: nat)
    requires MapOk(m, cap)
    ensures var (rest, printed) := FlushPid(m, pid);
      && Total(printed) + Total(rest) >= Total(m)
      && (Total(printed) + Total(rest) == Total(m) <==> |OfPid(m, pid)| <= 256)
  {
    hide OfPid, Positive, DeleteAll, FlushPid, Total;
    FlushPidShape(m, cap, pid);
    var mine := OfPid(m, pid);
    var gone := Batch(mine);
    forall e | e in gone ensures e in m { assert e in mine; }
    DeleteAllTotal(m, gone);
    if |mine| > PID_FLUSH_BATCH {
      var surplus := mine[PID_FLUSH_BATCH..];
      assert mine == gone + surplus;
      TotalConcat(gone, surplus);
      TotalPositive(surplus);
    }
  }

  lemma {:induction false} TotalPositive(m: seq<Entry>)
    requires forall i :: 0 <= i < |m| ==> m[i].val.count >= 1
    ensures Total(m) >= |m|
  {
    if m != [] { TotalPositive(m[..|m| - 1]); }
  }

  // ---- update_agg_map ----

  function Lookup(m: seq<Entry>, key: Key): seq<Value> {
    var i := IndexOf(m, key);
    if i < 0 then [] else [m[i].val]
  }

  function Inserted(m: seq<Entry>, at: nat, e: Entry): (r: seq<Entry>)
    requires at <= |m|
    ensures |r| == |m| + 1
  {
    m[..at] + [e] + m[at..]
  }

  lemma InsertedAt(m: seq<Entry>, at: nat, e: Entry, k: nat)
    requires at <= |m| && k <= |m|
    ensures Inserted(m, at, e)[k] == if k < at then m[k] else if k == at then e else m[k - 1]
  {
  }

  lemma InsertTotal(m: seq<Entry>, at: nat, e: Entry)
    requires at <= |m|
    ensures Total(Inserted(m, at, e)) == Total(m) + e.val.count
  {
    hide Total;
    SplitAt(m, at);
    TotalConcat(m[..at], m[at..]);
    TotalThree(m[..at], e, m[at..]);
  }

  lemma SplitAt(m: seq<Entry>, at: nat)
    requires at <= |m|
    ensures m[..at] + m[at..] == m
  {
  }

  lemma InsertOk(m: seq<Entry>, cap: nat, at: nat, e: Entry)
    requires MapOk(m, cap) && |m| < cap && at <= |m| && IndexOf(m, e.key) < 0 && e.val.count >= 1 && e.key != ZERO_KEY
    ensures MapOk(Inserted(m, at, e), cap)
  {
    hide Inserted;
    var m' := Inserted(m, at, e);
    forall i | 0 <= i < |m'| ensures m'[i].val.count >= 1 && m'[i].key != ZERO_KEY {
      InsertedAt(m, at, e, i);
    }
    forall i, j | 0 <= i < j < |m'| ensures m'[i].key != m'[j].key {
      InsertedAt(m, at, e, i);
      InsertedAt(m, at, e, j);
    }
  }

  lemma InsertLookup(m: seq<Entry>, at: nat, e: Entry, k: Key)
    requires DistinctKeys(m) && at <= |m| && IndexOf(m, e.key) < 0
    requires DistinctKeys(Inserted(m, at, e))
    ensures Lookup(Inserted(m, at, e), k) == if k == e.key then [e.val] else Lookup(m, k)
  {
    hide Inserted, IndexOf;
    var m' := Inserted(m, at, e);
    var i := IndexOf(m, k);
    if k == e.key {
      InsertedAt(m, at, e, at);
      IndexIs(m', at);
    } else if i >= 0 {
      var i' := if i < at then i else i + 1;
      InsertedAt(m, at, e, i');
      IndexIs(m', i');
    } else {
      var j := IndexOf(m', k);
      if j >= 0 { InsertedAt(m, at, e, j); }
    }
  }

  lemma {:induction false} TotalUpdate(m: seq<Entry>, i: nat, e: Entry)
    requires i < |m|
    ensures Total(m[i := e]) == Total(m) - m[i].val.count + e.val.count
  {
    var m' := m[i := e];
    if i < |m| - 1 {
      TotalUpdate(m[..|m| - 1], i, e);
      assert m'[..|m| - 1] == m[..|m| - 1][i := e];
    } else {
      assert m'[..|m| - 1] == m[..|m| - 1];
    }
  }

  lemma ReplaceOk(m: seq<Entry>, cap: nat, i: nat, e: Entry)
    requires MapOk(m, cap) && i < |m| && m[i].key == e.key && e.val.count >= 1
    ensures MapOk(m[i := e], cap)
  {
  }

  lemma ReplaceLookup(m: seq<Entry>, i: nat, e: Entry, k: Key)
    requires DistinctKeys(m) && i < |m| && m[i].key == e.key
    requires DistinctKeys(m[i := e])
    ensures Lookup(m[i := e], k) == if k == e.key then [e.val] else Lookup(m, k)
  {
    var m' := m[i := e];
    var j := IndexOf(m, k);
    if k == e.key {
      IndexIs(m', i);
    } else if j >= 0 {
      IndexIs(m', j);
    }
  }

  lemma LookupNone(m: seq<Entry>, key: Key)
    ensures Lookup(m, key) == [] <==> IndexOf(m, key) < 0
  {
  }

  // The map keeps its shape, and one update counts once: in its key's entry, or in the
  // overflow counter when the key is new and the map full.
  lemma ApplyCounts(m: seq<Entry>, cap: nat, u: Update)
    requires MapOk(m, cap) && u.key != ZERO_KEY
    ensures var r := Apply(m, cap, u);
      && MapOk(r.entries, cap)
      && (r.overflowed <==> Lookup(m, u.key) == [] && |m| == cap)
      && Total(r.entries) == Total(m) + (if r.overflowed then 0 else 1)
  {
    hide MapOk, DistinctKeys, Total, Landing, IndexOf, Inserted, Lookup;
    LookupNone(m, u.key);
    var i := IndexOf(m, u.key);
    if i >= 0 {
      var v := m[i].val;
      var e := Entry(u.key, Value(v.count + 1, v.bytes + u.bytes, v.firstTs, u.now, u.comm));
      ReplaceOk(m, cap, i, e);
      TotalUpdate(m, i, e);
    } else {
      WithinCap(m, cap);
      if |m| < cap {
        var at := Landing(u.at, |m|);
        var e := Entry(u.key, Value(1, u.bytes, u.now, u.now, u.comm));
        InsertOk(m, cap, at, e);
        InsertTotal(m, at, e);
      }
    }
  }

  lemma WithinCap(m: seq<Entry>, cap: nat)
    requires MapOk(m, cap)
    ensures |m| <= cap && DistinctKeys(m)
  {
  }

  // What the update leaves under each key: one more hit and the bytes added under its
  // own, everything else as it was.
  lemma ApplyStores(m: seq<Entry>, cap: nat, u: Update, k: Key)
    requires MapOk(m, cap) && u.key != ZERO_KEY && !Apply(m, cap, u).overflowed
    ensures var was := Lookup(m, u.key);
      Lookup(Apply(m, cap, u).entries, k) ==
        if k != u.key then Lookup(m, k)
        else if was == [] then [Value(1, u.bytes, u.now, u.now, u.comm)]
        else [Value(was[0].count + 1, was[0].bytes + u.bytes, was[0].firstTs, u.now, u.comm)]
  {
    hide MapOk, DistinctKeys, Landing;
    ApplyCounts(m, cap, u);
    WithinCap(m, cap);
    WithinCap(Apply(m, cap, u).entries, cap);
    var i := IndexOf(m, u.key);
    if i >= 0 {
      ReplaceLookup(m, i, Apply(m, cap, u).entries[i], k);
    } else if |m| < cap {
      InsertLookup(m, Landing(u.at, |m|), Entry(u.key, Value(1, u.bytes, u.now, u.now, u.comm)), k);
    }
  }

  // ---- Runs ----

  datatype Op = Hit(u: Update, cpu: nat) | Flush | ReportOverflow | FlushOf(pid: nat)

  // overflow is one counter per CPU; printed and warned are what went to stdout.
  datatype World = World(entries: seq<Entry>, overflow: seq<nat>, printed: seq<Entry>, warned: seq<nat>)

  function Sum(s: seq<nat>): nat {
    if s == [] then 0 else Sum(s[..|s| - 1]) + s[|s| - 1]
  }

  function Step(cap: nat, w: World, op: Op): (r: World)
    requires op.Hit? ==> op.cpu < |w.overflow|
    ensures |r.overflow| == |w.overflow|
  {
    match op
    case Hit(u, cpu) =>
      var r := Apply(w.entries, cap, u);
      w.(entries := r.entries, overflow := if r.overflowed then w.overflow[cpu := w.overflow[cpu] + 1] else w.overflow)
    case Flush =>
      var (rest, printed) := FlushAll(w.entries);
      w.(entries := rest, printed := w.printed + printed)
    case ReportOverflow =>
      if Sum(w.overflow) > 0 then
        w.(overflow := seq(|w.overflow|, _ => 0), warned := w.warned + [Sum(w.overflow)])
      else w
    case FlushOf(pid) =>
      var (rest, printed) := FlushPid(w.entries, pid);
      w.(entries := rest, printed := w.printed + printed)
  }

  predicate Legal(cpus: nat, ops: seq<Op>) {
    forall i :: 0 <= i < |ops| && ops[i].Hit? ==> ops[i].cpu < cpus && ops[i].u.key != ZERO_KEY
  }

  function Run(cap: nat, cpus: nat, ops: seq<Op>): (w: World)
    requires Legal(cpus, ops)
    ensures |w.overflow| == cpus
  {
    if ops == [] then World([], seq(cpus, _ => 0), [], [])
    else Step(cap, Run(cap, cpus, ops[..|ops| - 1]), ops[|ops| - 1])
  }

  function Hits(ops: seq<Op>): nat {
    if ops == [] then 0 else Hits(ops[..|ops| - 1]) + if ops[|ops| - 1].Hit? then 1 else 0
  }

  // Every per-PID flush of the run met at most 256 keys of its PID.
  predicate WithinBatches(cap: nat, cpus: nat, ops: seq<Op>)
    requires Legal(cpus, ops)
  {
    ops == [] ||
    var front, op := ops[..|ops| - 1], ops[|ops| - 1];
    && WithinBatches(cap, cpus, front)
    && (op.FlushOf? ==> |OfPid(Run(cap, cpus, front).entries, op.pid)| <= 256)
  }

  function Accounted(w: World): nat {
    Total(w.printed) + Total(w.entries) + Sum(w.overflow) + Sum(w.warned)
  }

  lemma {:induction false} SumUpdate(s: seq<nat>, i: nat, x: nat)
    requires i < |s|
    ensures Sum(s[i := x]) == Sum(s) - s[i] + x
  {
    var s' := s[i := x];
    if i < |s| - 1 {
      SumUpdate(s[..|s| - 1], i, x);
      assert s'[..|s| - 1] == s[..|s| - 1][i := x];
    } else {
      assert s'[..|s| - 1] == s[..|s| - 1];
    }
  }

  lemma {:induction false} SumZero(n: nat)
    ensures Sum(seq(n, _ => 0)) == 0
  {
    if n > 0 {
      SumZero(n - 1);
      assert seq(n, _ => 0)[..n - 1] == seq(n - 1, _ => 0);
    }
  }

  // One operation changes what is accounted for by exactly the update it makes,
  // except that an oversized PID flush counts its surplus twice.
  lemma StepAccounts(cap: nat, w: World, op: Op)
    requires MapOk(w.entries, cap) && (op.Hit? ==> op.cpu < |w.overflow| && op.u.key != ZERO_KEY)
    ensures var w' := Step(cap, w, op);
      var due := Accounted(w) + if op.Hit? then 1 else 0;
      && MapOk(w'.entries, cap)
      && Accounted(w') >= due
      && (Accounted(w') == due <==> !(op.FlushOf? && |OfPid(w.entries, op.pid)| > 256))
  {
    hide MapOk, OfPid, FlushPid, FlushAll, Apply;
    match op
    case Hit(u, cpu) =>
      ApplyCounts(w.entries, cap, u);
      SumUpdate(w.overflow, cpu, w.overflow[cpu] + 1);
    case Flush =>
      FlushAllDrains(w.entries, cap);
      EmptyOk(cap);
      TotalConcat(w.printed, w.entries);
    case ReportOverflow =>
      SumZero(|w.overflow|);
      SumAppend(w.warned, Sum(w.overflow));
    case FlushOf(pid) =>
      FlushPidExact(w.entries, cap, pid);
      FlushPidConserves(w.entries, cap, pid);
      TotalConcat(w.printed, FlushPid(w.entries, pid).1);
  }

  lemma EmptyOk(cap: nat)
    ensures MapOk([], cap) && Total([]) == 0
  {
  }

  lemma SumAppend(s: seq<nat>, x: nat)
    ensures Sum(s + [x]) == Sum(s) + x
  {
    assert (s + [x])[..|s|] == s;
  }

  // Over any sequential run no update is lost: each is in a printed summary, a live
  // entry, a pending overflow counter or a reported overflow. Nothing is counted twice
  // exactly when every per-PID flush met at most 256 keys.
  lemma {:induction false} RunAccounts(cap: nat, cpus: nat, ops: seq<Op>)
    requires Legal(cpus, ops)
    ensures var w := Run(cap, cpus, ops);
      && MapOk(w.entries, cap)
      && Accounted(w) >= Hits(ops)
      && (Accounted(w) == Hits(ops) <==> WithinBatches(cap, cpus, ops))
  {
    if ops == [] {
      SumZero(cpus);
    } else {
      var front, op := ops[..|ops| - 1], ops[|ops| - 1];
      RunAccounts(cap, cpus, front);
      StepAccounts(cap, Run(cap, cpus, front), op);
    }
  }

  // ---- A run that counts twice ----

  // Distinct keys of one PID; the first character of a detail is never NUL.
  function NthKey(pid: nat, i: nat): Key
    requires i < 4096
  {
    Key(pid, 10, [(1 + i / 64) as char, (1 + i % 64) as char])
  }

  lemma KeysDiffer(pid: nat, i: nat, j: nat)
    requires i < 4096 && j < 4096 && i != j
    ensures NthKey(pid, i) != NthKey(pid, j)
  {
    assert i == i / 64 * 64 + i % 64 && j == j / 64 * 64 + j % 64;
    var x, y := NthKey(pid, i).detail, NthKey(pid, j).detail;
    assert x[0] == y[0] && x[1] == y[1] ==> i == j;
  }

  // One update of each of the first n keys, on CPU 0.
  function HitEach(pid: nat, n: nat): (ops: seq<Op>)
    requires n <= 4096
    ensures |ops| == n && Legal(1, ops)
  {
    seq(n, i requires 0 <= i < n => Hit(Update(NthKey(pid, i), 0, i, "", i), 0))
  }

  function EachOnce(pid: nat, n: nat): (m: seq<Entry>)
    requires n <= 4096
    ensures |m| == n
  {
    seq(n, i requires 0 <= i < n => Entry(NthKey(pid, i), Value(1, 0, i, i, "")))
  }

  lemma InsertedLast(m: seq<Entry>, e: Entry)
    ensures Inserted(m, |m|, e) == m + [e]
  {
  }

  lemma LandsLast(a: nat)
    ensures Landing(a, a) == a
  {
  }

  lemma ApplyAppends(m: seq<Entry>, cap: nat, u: Update)
    requires IndexOf(m, u.key) < 0 && |m| < cap && u.at == |m|
    ensures Apply(m, cap, u) == UpdateResult(m + [Entry(u.key, Value(1, u.bytes, u.now, u.now, u.comm))], false)
  {
    hide IndexOf, Inserted, Landing;
    LandsLast(|m|);
    InsertedLast(m, Entry(u.key, Value(1, u.bytes, u.now, u.now, u.comm)));
  }

  lemma NthIsNew(pid: nat, n: nat)
    requires n < 4096
    ensures IndexOf(EachOnce(pid, n), NthKey(pid, n)) < 0
  {
    hide IndexOf, NthKey;
    forall i | 0 <= i < n ensures EachOnce(pid, n)[i].key != NthKey(pid, n) { KeysDiffer(pid, i, n); }
  }

  lemma {:induction false} HitEachStores(cap: nat, pid: nat, n: nat)
    requires n <= 4096 && n <= cap
    ensures Run(cap, 1, HitEach(pid, n)).entries == EachOnce(pid, n)
  {
    hide IndexOf, NthKey, Apply;
    if n > 0 {
      HitEachStores(cap, pid, n - 1);
      NthIsNew(pid, n - 1);
      assert HitEach(pid, n)[..n - 1] == HitEach(pid, n - 1);
      ApplyAppends(EachOnce(pid, n - 1), cap, HitEach(pid, n)[n - 1].u);
    }
  }

  lemma {:induction false} EachIsOfPid(pid: nat, n: nat)
    requires n <= 4096
    ensures OfPid(EachOnce(pid, n), pid) == EachOnce(pid, n)
  {
    if n > 0 {
      EachIsOfPid(pid, n - 1);
      assert EachOnce(pid, n)[..n - 1] == EachOnce(pid, n - 1);
    }
  }

  lemma {:induction false} HitEachWithin(cap: nat, pid: nat, n: nat)
    requires n <= 4096
    ensures WithinBatches(cap, 1, HitEach(pid, n)) && Hits(HitEach(pid, n)) == n
  {
    if n > 0 {
      HitEachWithin(cap, pid, n - 1);
      assert HitEach(pid, n)[..n - 1] == HitEach(pid, n - 1);
    }
  }

  // A PID with n keys that exits: its updates are counted once if and only if n is at
  // most 256. With 257 keys the run below counts more than was updated.
  lemma ManyKeysCountTwice(cap: nat, pid: nat, n: nat)
    requires n <= 4096 && n <= cap
    ensures var ops := HitEach(pid, n) + [FlushOf(pid)];
      && Legal(1, ops) && Hits(ops) == n
      && (Accounted(Run(cap, 1, ops)) == n <==> n <= 256)
      && (n > 256 ==> Accounted(Run(cap, 1, ops)) > n)
  {
    hide Run, Accounted, OfPid, NthKey, MapOk;
    var ops := HitEach(pid, n) + [FlushOf(pid)];
    assert ops[..n] == HitEach(pid, n);
    HitEachStores(cap, pid, n);
    EachIsOfPid(pid, n);
    HitEachWithin(cap, pid, n);
    RunAccounts(cap, 1, ops);
  }

  // ---- The map as it is updated in place ----

  class KernelMap {
    const cap: nat
    var entries: seq<Entry>
    const overflow: array<nat>

    ghost predicate Valid()
      reads this
    {
      MapOk(entries, cap)
    }

    constructor (cap: nat, cpus: nat)
      ensures Valid() && entries == [] && this.cap == cap && fresh(overflow) && overflow[..] == seq(cpus, _ => 0)
    {
      this.cap := cap;
      entries := [];
      overflow := new nat[cpus](_ => 0);
    }

    // update_agg_map on one CPU
    method UpdateAggMap(u: Update, cpu: nat)
      requires Valid() && u.key != ZERO_KEY && cpu < overflow.Length
      modifies this, overflow
      ensures Valid() && var r := Apply(old(entries), cap, u);
        && entries == r.entries
        && overflow[..] == old(if r.overflowed then overflow[..][cpu := overflow[cpu] + 1] else overflow[..])
    {
      hide MapOk, IndexOf, Total, Lookup, Landing, Inserted;
      ApplyCounts(entries, cap, u);
      var i := IndexOf(entries, u.key);
      if i >= 0 {
        var v := entries[i].val;
        v := v.(count := v.count + 1);
        if u.bytes != 0 {
          v := v.(bytes := v.bytes + u.bytes);
        }
        v := v.(lastTs := u.now, comm := u.comm);
        entries := entries[i := Entry(u.key, v)];
      } else if |entries| < cap {
        var at := Landing(u.at, |entries|);
        entries := Inserted(entries, at, Entry(u.key, Value(1, u.bytes, u.now, u.now, u.comm)));
      } else {
        overflow[cpu] := overflow[cpu] + 1;
      }
    }

    // flush_agg_map
    method FlushAggMap() returns (printed: seq<Entry>)
      requires DistinctKeys(entries)
      modifies this`entries
      ensures (entries, printed) == FlushAll(old(entries))
      ensures old(Valid()) ==> Valid() && entries == [] && printed == old(entries)
    {
      hide MapOk, FlushFrom, IndexOf;
      ghost var was := entries;
      if MapOk(was, cap) { FlushAllDrains(was, cap); EmptyOk(cap); }
      printed := [];
      var key := ZERO_KEY;
      ghost var next := IndexOf(entries, key) + 1;
      while true
        invariant DistinctKeys(entries) && next == IndexOf(entries, key) + 1
        invariant FlushAll(was).0 == FlushFrom(entries, next).0
        invariant FlushAll(was).1 == printed + FlushFrom(entries, next).1
        decreases |entries|, |entries| - next
      {
        var cursor := NextKey(entries, key);
        if cursor == End {
          FlushFromEnd(entries, next);
          break;
        }
        var nextKey := cursor.key;
        IndexIs(entries, next);
        FlushFromStep(entries, next);
        var i := IndexOf(entries, nextKey);
        if i >= 0 && entries[i].val.count > 0 {
          DeleteAtIn(entries, next);
          DeletedKeyGone(entries, next);
          assert printed + FlushFrom(entries, next).1 == printed + [entries[i]] + FlushFrom(DeleteAt(entries, next), 0).1;
          printed := printed + [entries[i]];
          entries := DeleteKey(entries, nextKey);
          next := 0;
        } else {
          next := next + 1;
        }
        key := nextKey;
      }
      assert printed + [] == printed;
    }

    // flush_pid_from_agg_map
    method FlushPidFromAggMap(pid: nat) returns (printed: seq<Entry>)
      requires Valid()
      modifies this`entries
      ensures Valid() && (entries, printed) == FlushPid(old(entries), pid)
    {
      hide MapOk, OfPid, DeleteAll, FlushPid;
      FlushPidExact(entries, cap, pid);
      FlushPidShape(entries, cap, pid);
      var toDelete := new Key[PID_FLUSH_BATCH](_ => ZERO_KEY);
      var delCount;
      printed, delCount := CollectPid(pid, toDelete);
      DeleteCollected(toDelete, delCount, Batch(printed));
    }

    // The walk of flush_pid_from_agg_map: prints, and notes the first 256 keys.
    method CollectPid(pid: nat, toDelete: array<Key>) returns (printed: seq<Entry>, delCount: nat)
      requires Valid() && toDelete.Length == PID_FLUSH_BATCH
      modifies toDelete
      ensures printed == OfPid(entries, pid)
      ensures delCount == |Batch(printed)|
      ensures forall k :: 0 <= k < delCount ==> toDelete[k] == printed[k].key
    {
      hide IndexOf;
      printed, delCount := [], 0;
      var key := ZERO_KEY;
      ghost var done := 0;
      while true
        invariant done <= |entries| && IndexOf(entries, key) == done - 1
        invariant printed == OfPid(entries[..done], pid)
        invariant delCount == |Batch(printed)|
        invariant forall k :: 0 <= k < delCount ==> toDelete[k] == printed[k].key
        decreases |entries| - done
      {
        var cursor := NextKey(entries, key);
        if cursor == End {
          break;
        }
        var nextKey := cursor.key;
        IndexIs(entries, done);
        assert entries[..done + 1][..done] == entries[..done];
        if nextKey.pid == pid {
          var i := IndexOf(entries, nextKey);
          if i >= 0 && entries[i].val.count > 0 {
            printed := printed + [entries[i]];
          }
          if delCount < PID_FLUSH_BATCH {
            toDelete[delCount] := nextKey;
            delCount := delCount + 1;
          }
        }
        key := nextKey;
        done := done + 1;
      }
      assert entries[..done] == entries;
    }

    // Its deletion loop.
    method DeleteCollected(toDelete: array<Key>, delCount: nat, ghost gone: seq<Entry>)
      requires delCount == |gone| <= toDelete.Length
      requires forall k :: 0 <= k < delCount ==> toDelete[k] == gone[k].key
      modifies this`entries
      ensures entries == DeleteAll(old(entries), gone)
    {
      ghost var was := entries;
      for i := 0 to delCount
        invariant DeleteAll(was, gone) == DeleteAll(entries, gone[i..])
      {
        entries := DeleteKey(entries, toDelete[i]);
      }
    }

    // check_overflow: adds up the CPUs, reports a positive total and resets.
    method CheckOverflow() returns (total: nat)
      modifies overflow
      ensures total == Sum(old(overflow[..]))
      ensures overflow[..] == if total > 0 then seq(overflow.Length, _ => 0) else old(overflow[..])
    {
      total := 0;
      for i := 0 to overflow.Length
        invariant total == Sum(overflow[..i])
        invariant overflow[..] == old(overflow[..])
      {
        assert overflow[..i + 1][..i] == overflow[..i];
        total := total + overflow[i];
      }
      assert overflow[..overflow.Length] == overflow[..];
      if total > 0 {
        for i := 0 to overflow.Length
          invariant forall k :: 0 <= k < i ==> overflow[k] == 0
        {
          overflow[i] := 0;
        }
      }
    }
  }
}
