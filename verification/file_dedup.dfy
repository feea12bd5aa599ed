// The sliding-window deduplication of file opens in bpf/process.c: the table
// file_hashes, get_file_open_count after its rate-limit check, and
// flush_pid_file_opens. Verbose output is off.
module FileDedup {
  import opened Search

  const MAX_FILE_HASHES := 1024
  const WINDOW_NS := 60_000_000_000
  const TWO_32 := 0x1_0000_0000
  const TWO_64 := 0x1_0000_0000_0000_0000

  // What is reported about a file; fd is printed as -1 for aggregated lines.
  datatype File = File(pid: int, comm: string, path: string, flags: int)

  datatype Entry = Entry(hash: nat, ts: nat, count: nat, file: File)

  // The table is swept either for entries outside the window or for one PID.
  datatype Sweep = Window(now: nat) | ExitOf(pid: int)

  // The age is an unsigned 64-bit difference: an entry stamped later than now
  // counts as expired.
  predicate Dead(w: Sweep, e: Entry) {
    match w
    case Window(now) => (now - e.ts) % TWO_64 > WINDOW_NS
    case ExitOf(pid) => e.file.pid == pid
  }

  // One removal: the last entry takes the place of entry i.
  function SwapOut(s: seq<Entry>, i: nat): (r: seq<Entry>)
    requires i < |s|
    ensures |r| == |s| - 1
  {
    s[i := s[|s| - 1]][..|s| - 1]
  }

  // The sweep from index i on: the entries left, and the reports of those removed.
  function Swept(w: Sweep, s: seq<Entry>, i: nat): seq<Entry>
    requires i <= |s|
    decreases |s| - i
  {
    if i == |s| then s
    else if Dead(w, s[i]) then Swept(w, SwapOut(s, i), i)
    else Swept(w, s, i + 1)
  }

  function Removed(w: Sweep, s: seq<Entry>, i: nat): seq<Entry>
    requires i <= |s|
    decreases |s| - i
  {
    if i == |s| then []
    else if Dead(w, s[i]) then [s[i]] + Removed(w, SwapOut(s, i), i)
    else Removed(w, s, i + 1)
  }

  // One turn of the sweep.
  lemma SweepTurn(w: Sweep, s: seq<Entry>, i: nat)
    requires i <= |s|
    ensures i == |s| ==> Swept(w, s, i) == s && Removed(w, s, i) == []
    ensures i < |s| && Dead(w, s[i]) ==>
      Swept(w, s, i) == Swept(w, SwapOut(s, i), i) && Removed(w, s, i) == [s[i]] + Removed(w, SwapOut(s, i), i)
    ensures i < |s| && !Dead(w, s[i]) ==>
      Swept(w, s, i) == Swept(w, s, i + 1) && Removed(w, s, i) == Removed(w, s, i + 1)
  {
  }

  // The entries worth a line: those that stand for more than the open already reported.
  function Reported(s: seq<Entry>): seq<Entry> {
    if s == [] then []
    else if s[|s| - 1].count > 1 then Reported(s[..|s| - 1]) + [s[|s| - 1]]
    else Reported(s[..|s| - 1])
  }

  lemma ReportedNext(s: seq<Entry>, e: Entry)
    ensures Reported(s + [e]) == if e.count > 1 then Reported(s) + [e] else Reported(s)
  {
    assert (s + [e])[..|s|] == s;
  }

  lemma NoneReported()
    ensures Reported([]) == []
  {
  }

  function DeadOnes(w: Sweep, s: seq<Entry>): seq<Entry> {
    if s == [] then []
    else if Dead(w, s[|s| - 1]) then DeadOnes(w, s[..|s| - 1]) + [s[|s| - 1]]
    else DeadOnes(w, s[..|s| - 1])
  }

  lemma DeadNext(w: Sweep, s: seq<Entry>, i: nat)
    requires i < |s|
    ensures DeadOnes(w, s[..i + 1]) == if Dead(w, s[i]) then DeadOnes(w, s[..i]) + [s[i]] else DeadOnes(w, s[..i])
  {
    assert s[..i + 1][..i] == s[..i];
  }

  lemma NoneDeadYet(w: Sweep, s: seq<Entry>)
    ensures Reported(DeadOnes(w, s[..0])) == []
  {
  }

  function IndexOf(s: seq<Entry>, hash: nat): (r: int)
    ensures -1 <= r < |s|
    ensures r >= 0 ==> s[r].hash == hash && forall i :: 0 <= i < r ==> s[i].hash != hash
    ensures r < 0 ==> forall i :: 0 <= i < |s| ==> s[i].hash != hash
  {
    FirstWhere(s, (e: Entry) => e.hash == hash)
  }

  datatype OpenResult = OpenResult(table: seq<Entry>, report: bool)

  // An open against a table already swept: counted in an entry (report false), or
  // reported and remembered if there is room.
  function Record(s: seq<Entry>, hash: nat, file: File, now: nat): OpenResult {
    var i := IndexOf(s, hash);
    if i >= 0 then
      OpenResult(s[i := s[i].(count := (s[i].count + 1) % TWO_32, ts := now)], false)
    else if |s| < MAX_FILE_HASHES then
      OpenResult(s + [Entry(hash, now, 1, file)], true)
    else
      OpenResult(s, true)
  }

  // ---- Sweeping removes exactly the dead entries ----

  lemma SwapOutMultiset(s: seq<Entry>, i: nat)
    requires i < |s|
    ensures multiset(s) == multiset(SwapOut(s, i)) + multiset{s[i]}
  {
    var last := s[|s| - 1];
    assert s == s[..|s| - 1] + [last];
    if i < |s| - 1 {
      assert SwapOut(s, i) == s[..|s| - 1][i := last];
    } else {
      assert SwapOut(s, i) == s[..|s| - 1];
    }
  }

  lemma {:induction false} SweptSplits(w: Sweep, s: seq<Entry>, i: nat)
    requires i <= |s|
    requires forall k :: 0 <= k < i ==> !Dead(w, s[k])
    ensures multiset(s) == multiset(Swept(w, s, i)) + multiset(Removed(w, s, i))
    ensures forall e :: e in Swept(w, s, i) ==> !Dead(w, e)
    ensures forall e :: e in Removed(w, s, i) ==> Dead(w, e)
    decreases |s| - i
  {
    if i < |s| {
      if Dead(w, s[i]) {
        SwapOutMultiset(s, i);
        SweptSplits(w, SwapOut(s, i), i);
      } else {
        SweptSplits(w, s, i + 1);
      }
    }
  }

  ghost predicate TableOk(s: seq<Entry>) {
    && |s| <= MAX_FILE_HASHES
    && (forall i, j :: 0 <= i < j < |s| ==> s[i].hash != s[j].hash)
    && (forall i :: 0 <= i < |s| ==> s[i].count < TWO_32)
  }

  lemma {:induction false} SweptOk(w: Sweep, s: seq<Entry>, i: nat)
    requires i <= |s| && TableOk(s)
    ensures TableOk(Swept(w, s, i))
    decreases |s| - i
  {
    if i < |s| {
      if Dead(w, s[i]) {
        SweptOk(w, SwapOut(s, i), i);
      } else {
        SweptOk(w, s, i + 1);
      }
    }
  }

  // ---- Runs ----

  datatype Event = Open(hash: nat, file: File, ts: nat) | Exit(pid: int)

  // An immediate line with count 1, or the aggregate line of a removed entry.
  datatype Line = Single(hash: nat, file: File, ts: nat) | Aggregate(entry: Entry, why: Sweep)

  function Aggregates(w: Sweep, s: seq<Entry>): (r: seq<Line>)
    ensures |r| == |s|
  {
    seq(|s|, i requires 0 <= i < |s| => Aggregate(s[i], w))
  }

  // get_file_open_count: entries outside the window are reported and removed in scan
  // order, then the open is recorded.
  function OpenStep(s: seq<Entry>, hash: nat, file: File, ts: nat): (seq<Entry>, seq<Line>) {
    var w := Window(ts);
    var r := Record(Swept(w, s, 0), hash, file, ts);
    (r.table, Aggregates(w, Reported(Removed(w, s, 0))) + if r.report then [Single(hash, file, ts)] else [])
  }

  // flush_pid_file_opens: reports in index order, then the removals.
  function ExitStep(s: seq<Entry>, pid: int): (seq<Entry>, seq<Line>) {
    var w := ExitOf(pid);
    (Swept(w, s, 0), Aggregates(w, Reported(DeadOnes(w, s))))
  }

  function Step(s: seq<Entry>, e: Event): (seq<Entry>, seq<Line>) {
    match e
    case Open(hash, file, ts) => OpenStep(s, hash, file, ts)
    case Exit(pid) => ExitStep(s, pid)
  }

  function RunTable(es: seq<Event>): seq<Entry> {
    if es == [] then [] else Step(RunTable(es[..|es| - 1]), es[|es| - 1]).0
  }

  function RunLog(es: seq<Event>): seq<Line> {
    if es == [] then []
    else RunLog(es[..|es| - 1]) + Step(RunTable(es[..|es| - 1]), es[|es| - 1]).1
  }

  // ---- Bookkeeping per dedup key ----

  // Which entries to add up.
  datatype Of = Key(hash: nat) | DeadWith(hash: nat, w: Sweep)

  // How many opens an entry stands for beyond the one reported at once.
  function Weight(of: Of, e: Entry): int {
    if e.hash == of.hash && (of.DeadWith? ==> Dead(of.w, e)) then e.count - 1 else 0
  }

  function Extra(of: Of, s: seq<Entry>): int {
    if s == [] then 0 else Extra(of, s[..|s| - 1]) + Weight(of, s[|s| - 1])
  }

  function LineWeight(hash: nat, l: Line): int {
    match l
    case Single(_, _, _) => 0
    case Aggregate(e, _) => if e.hash == hash then e.count - 1 else 0
  }

  // Sum of (count - 1) over the aggregate lines of the key.
  function ExtraReported(hash: nat, log: seq<Line>): int {
    if log == [] then 0 else ExtraReported(hash, log[..|log| - 1]) + LineWeight(hash, log[|log| - 1])
  }

  // Number of immediate reports of the key.
  function Singles(hash: nat, log: seq<Line>): nat {
    if log == [] then 0
    else
      var l := log[|log| - 1];
      Singles(hash, log[..|log| - 1]) + if l.Single? && l.hash == hash then 1 else 0
  }

  function Opens(hash: nat, es: seq<Event>): nat {
    if es == [] then 0
    else
      var e := es[|es| - 1];
      Opens(hash, es[..|es| - 1]) + if e.Open? && e.hash == hash then 1 else 0
  }

  // Every open of the key is accounted for.
  ghost predicate Balanced(hash: nat, es: seq<Event>) {
    Opens(hash, es) == Singles(hash, RunLog(es)) + ExtraReported(hash, RunLog(es)) + Extra(Key(hash), RunTable(es))
  }

  lemma {:induction false} ExtraUpdate(of: Of, s: seq<Entry>, i: nat, e: Entry)
    requires i < |s|
    ensures Extra(of, s[i := e]) == Extra(of, s) - Weight(of, s[i]) + Weight(of, e)
  {
    var s' := s[i := e];
    if i < |s| - 1 {
      ExtraUpdate(of, s[..|s| - 1], i, e);
      assert s'[..|s| - 1] == s[..|s| - 1][i := e];
    } else {
      assert s'[..|s| - 1] == s[..|s| - 1];
    }
  }

  lemma ExtraSwapOut(of: Of, s: seq<Entry>, i: nat)
    requires i < |s|
    ensures Extra(of, s) == Extra(of, SwapOut(s, i)) + Weight(of, s[i])
  {
    ExtraUpdate(of, s, i, s[|s| - 1]);
  }

  lemma {:induction false} NoneDead(hash: nat, w: Sweep, s: seq<Entry>)
    requires forall k :: 0 <= k < |s| ==> !Dead(w, s[k])
    ensures Extra(DeadWith(hash, w), s) == 0
  {
    if s != [] { NoneDead(hash, w, s[..|s| - 1]); }
  }

  lemma {:induction false} ExtraPrepend(of: Of, e: Entry, s: seq<Entry>)
    ensures Extra(of, [e] + s) == Weight(of, e) + Extra(of, s)
  {
    if s == [] {
      assert [e] + s == [e];
    } else {
      ExtraPrepend(of, e, s[..|s| - 1]);
      assert ([e] + s)[..|s|] == [e] + s[..|s| - 1];
    }
  }

  // A sweep takes the dead entries' extra opens out of the table and nothing else.
  lemma {:induction false} SweptExtra(hash: nat, w: Sweep, s: seq<Entry>, i: nat)
    requires i <= |s| && forall k :: 0 <= k < i ==> !Dead(w, s[k])
    ensures Extra(Key(hash), Removed(w, s, i)) == Extra(DeadWith(hash, w), s)
    ensures Extra(Key(hash), Swept(w, s, i)) == Extra(Key(hash), s) - Extra(DeadWith(hash, w), s)
    decreases |s| - i
  {
    if i == |s| {
      NoneDead(hash, w, s);
    } else if Dead(w, s[i]) {
      SweptExtra(hash, w, SwapOut(s, i), i);
      ExtraSwapOut(Key(hash), s, i);
      ExtraSwapOut(DeadWith(hash, w), s, i);
      ExtraPrepend(Key(hash), s[i], Removed(w, SwapOut(s, i), i));
    } else {
      SweptExtra(hash, w, s, i + 1);
    }
  }

  lemma {:induction false} DeadOnesExtra(hash: nat, w: Sweep, s: seq<Entry>)
    ensures Extra(Key(hash), DeadOnes(w, s)) == Extra(DeadWith(hash, w), s)
  {
    if s != [] {
      DeadOnesExtra(hash, w, s[..|s| - 1]);
      if Dead(w, s[|s| - 1]) {
        assert DeadOnes(w, s)[..|DeadOnes(w, s)| - 1] == DeadOnes(w, s[..|s| - 1]);
      }
    }
  }

  // Entries with count 1 need no line: the open they stand for was reported.
  lemma {:induction false} ReportedExtra(hash: nat, s: seq<Entry>)
    requires forall e :: e in s ==> e.count >= 1
    ensures Extra(Key(hash), Reported(s)) == Extra(Key(hash), s)
  {
    if s != [] {
      assert s[|s| - 1] in s;
      ReportedExtra(hash, s[..|s| - 1]);
      if s[|s| - 1].count > 1 {
        assert Reported(s)[..|Reported(s)| - 1] == Reported(s[..|s| - 1]);
      }
    }
  }

  lemma {:induction false} AggregatesCount(hash: nat, w: Sweep, log: seq<Line>, s: seq<Entry>)
    ensures ExtraReported(hash, log + Aggregates(w, s)) == ExtraReported(hash, log) + Extra(Key(hash), s)
    ensures Singles(hash, log + Aggregates(w, s)) == Singles(hash, log)
  {
    if s == [] {
      assert log + Aggregates(w, s) == log;
    } else {
      var front := s[..|s| - 1];
      AggregatesCount(hash, w, log, front);
      var all := log + Aggregates(w, s);
      assert all[..|all| - 1] == log + Aggregates(w, front);
      assert all[|all| - 1] == Aggregate(s[|s| - 1], w);
    }
  }

  // ---- Conservation ----

  ghost predicate Counted(s: seq<Entry>) {
    forall e :: e in s ==> e.count >= 1
  }

  // The open meets a counter at its largest value, which then wraps to 0.
  predicate Wraps(s: seq<Entry>, e: Event) {
    e.Open? &&
    var t := Swept(Window(e.ts), s, 0);
    var i := IndexOf(t, e.hash);
    i >= 0 && t[i].count == TWO_32 - 1
  }

  predicate NeverWraps(es: seq<Event>) {
    es == [] || (NeverWraps(es[..|es| - 1]) && !Wraps(RunTable(es[..|es| - 1]), es[|es| - 1]))
  }

  function One(b: bool): nat {
    if b then 1 else 0
  }

  lemma RecordExtra(hash: nat, s: seq<Entry>, h: nat, file: File, now: nat)
    requires TableOk(s)
    ensures var r := Record(s, h, file, now); var i := IndexOf(s, h);
      Extra(Key(hash), r.table) + One(r.report && h == hash) ==
      Extra(Key(hash), s) + One(h == hash) - if h == hash && i >= 0 && s[i].count == TWO_32 - 1 then TWO_32 else 0
  {
    var r := Record(s, h, file, now);
    var i := IndexOf(s, h);
    if i >= 0 {
      ExtraUpdate(Key(hash), s, i, r.table[i]);
    } else if |s| < MAX_FILE_HASHES {
      assert r.table[..|s|] == s;
    }
  }

  lemma RecordOk(s: seq<Entry>, h: nat, file: File, now: nat)
    requires TableOk(s)
    ensures TableOk(Record(s, h, file, now).table)
  {
  }

  lemma StepOk(s: seq<Entry>, e: Event)
    requires TableOk(s)
    ensures TableOk(Step(s, e).0)
  {
    match e
    case Open(hash, file, ts) =>
      SweptOk(Window(ts), s, 0);
      RecordOk(Swept(Window(ts), s, 0), hash, file, ts);
    case Exit(pid) => SweptOk(ExitOf(pid), s, 0);
  }

  lemma StepCounted(s: seq<Entry>, e: Event)
    requires TableOk(s) && Counted(s) && !Wraps(s, e)
    ensures Counted(Step(s, e).0)
  {
    match e
    case Open(hash, file, ts) =>
      var t := Swept(Window(ts), s, 0);
      SweptOk(Window(ts), s, 0);
      SweptSplits(Window(ts), s, 0);
      forall x | x in t ensures x.count >= 1 {
        assert x in multiset(t) && x in multiset(s);
      }
    case Exit(pid) =>
      var t := Swept(ExitOf(pid), s, 0);
      SweptSplits(ExitOf(pid), s, 0);
      forall x | x in t ensures x.count >= 1 {
        assert x in multiset(t) && x in multiset(s);
      }
  }

  // What a sweep takes out of the table, its reports show.
  lemma SweepBalance(hash: nat, w: Sweep, s: seq<Entry>)
    requires Counted(s)
    ensures Extra(Key(hash), Swept(w, s, 0)) + Extra(Key(hash), Reported(Removed(w, s, 0))) == Extra(Key(hash), s)
  {
    hide Extra, Swept, Removed, Reported, Dead;
    var gone := Removed(w, s, 0);
    SweptSplits(w, s, 0);
    SweptExtra(hash, w, s, 0);
    forall x | x in gone ensures x.count >= 1 {
      assert x in multiset(gone) && x in multiset(s);
    }
    ReportedExtra(hash, gone);
  }

  lemma LineAdds(hash: nat, log: seq<Line>, l: Line)
    ensures Singles(hash, log + [l]) == Singles(hash, log) + One(l.Single? && l.hash == hash)
    ensures ExtraReported(hash, log + [l]) == ExtraReported(hash, log) + LineWeight(hash, l)
  {
    assert (log + [l])[..|log|] == log;
  }

  // The lines of one open: the aggregates of the entries gone, then perhaps its own.
  lemma OpenLines(hash: nat, log: seq<Line>, w: Sweep, gone: seq<Entry>, single: Line, report: bool)
    requires single.Single?
    ensures var all := log + (Aggregates(w, gone) + if report then [single] else []);
      && Singles(hash, all) == Singles(hash, log) + One(report && single.hash == hash)
      && ExtraReported(hash, all) == ExtraReported(hash, log) + Extra(Key(hash), gone)
  {
    hide Extra, Singles, ExtraReported, Aggregates;
    AggregatesCount(hash, w, log, gone);
    var log' := log + Aggregates(w, gone);
    if report {
      LineAdds(hash, log', single);
      assert log + (Aggregates(w, gone) + [single]) == log' + [single];
    } else {
      assert log + (Aggregates(w, gone) + []) == log';
    }
  }

  lemma OpenBalance(hash: nat, log: seq<Line>, s: seq<Entry>, e: Event)
    requires TableOk(s) && Counted(s) && e.Open?
    ensures var (s', lines) := Step(s, e);
      Singles(hash, log + lines) + ExtraReported(hash, log + lines) + Extra(Key(hash), s') ==
      Singles(hash, log) + ExtraReported(hash, log) + Extra(Key(hash), s)
        + One(e.hash == hash) - if e.hash == hash && Wraps(s, e) then TWO_32 else 0
  {
    hide Extra, Singles, ExtraReported, Swept, Removed, Reported, Aggregates, TableOk, Counted, Record, IndexOf;
    var w := Window(e.ts);
    var t, gone := Swept(w, s, 0), Removed(w, s, 0);
    SweptOk(w, s, 0);
    SweepBalance(hash, w, s);
    RecordExtra(hash, t, e.hash, e.file, e.ts);
    OpenLines(hash, log, w, Reported(gone), Single(e.hash, e.file, e.ts), Record(t, e.hash, e.file, e.ts).report);
  }

  lemma ExitBalance(hash: nat, log: seq<Line>, s: seq<Entry>, pid: int)
    requires TableOk(s) && Counted(s)
    ensures var (s', lines) := ExitStep(s, pid);
      Singles(hash, log + lines) + ExtraReported(hash, log + lines) + Extra(Key(hash), s') ==
      Singles(hash, log) + ExtraReported(hash, log) + Extra(Key(hash), s)
  {
    var w := ExitOf(pid);
    SweptExtra(hash, w, s, 0);
    DeadOnesExtra(hash, w, s);
    DeadOnesIn(w, s);
    ReportedExtra(hash, DeadOnes(w, s));
    AggregatesCount(hash, w, log, Reported(DeadOnes(w, s)));
  }

  lemma {:induction false} DeadOnesIn(w: Sweep, s: seq<Entry>)
    ensures forall e :: e in DeadOnes(w, s) <==> e in s && Dead(w, e)
  {
    if s != [] {
      DeadOnesIn(w, s[..|s| - 1]);
      assert s == s[..|s| - 1] + [s[|s| - 1]];
    }
  }

  lemma RunStepBalance(hash: nat, es: seq<Event>)
    requires es != []
    requires var before := RunTable(es[..|es| - 1]); TableOk(before) && Counted(before)
    requires Balanced(hash, es[..|es| - 1])
    ensures var e := es[|es| - 1];
      Balanced(hash, es) <==> !(e.Open? && e.hash == hash && Wraps(RunTable(es[..|es| - 1]), e))
  {
    var front, e := es[..|es| - 1], es[|es| - 1];
    match e
    case Open(_, _, _) => OpenBalance(hash, RunLog(front), RunTable(front), e);
    case Exit(pid) => ExitBalance(hash, RunLog(front), RunTable(front), pid);
  }

  // The table always holds distinct keys, at most 1024 of them.
  lemma {:induction false} RunOk(es: seq<Event>)
    ensures TableOk(RunTable(es))
  {
    if es != [] {
      RunOk(es[..|es| - 1]);
      StepOk(RunTable(es[..|es| - 1]), es[|es| - 1]);
    }
  }

  // Unless a 32-bit counter wraps, every open that passed the limiter is accounted
  // for, for every key: reported at once, in an aggregate line, or in a live entry.
  lemma {:induction false} Conservation(es: seq<Event>)
    requires NeverWraps(es)
    ensures Counted(RunTable(es)) && forall hash :: Balanced(hash, es)
  {
    if es != [] {
      var front := es[..|es| - 1];
      Conservation(front);
      RunOk(front);
      StepCounted(RunTable(front), es[|es| - 1]);
      forall hash ensures Balanced(hash, es) {
        RunStepBalance(hash, es);
      }
    }
  }

  // And only then: a run is balanced throughout exactly when no counter wraps.
  lemma {:induction false} ConservationExact(es: seq<Event>)
    ensures (forall n, hash :: 0 <= n <= |es| ==> Balanced(hash, es[..n])) <==> NeverWraps(es)
  {
    if es != [] {
      var front, e := es[..|es| - 1], es[|es| - 1];
      ConservationExact(front);
      assert forall n :: 0 <= n < |es| ==> es[..n] == front[..n];
      assert es[..|es|] == es;
      if NeverWraps(front) {
        Conservation(front);
        RunOk(front);
        if Wraps(RunTable(front), e) {
          RunStepBalance(e.hash, es);
          assert !Balanced(e.hash, es[..|es|]);
        } else {
          Conservation(es);
          forall n, hash | 0 <= n <= |es| ensures Balanced(hash, es[..n]) {
            if n < |es| { assert Balanced(hash, front[..n]); }
          }
        }
      } else {
        var n, hash :| 0 <= n <= |front| && !Balanced(hash, front[..n]);
        assert !Balanced(hash, es[..n]);
      }
    }
  }

  // ---- A run that loses opens ----

  // n opens of one key at one time.
  function SameOpens(hash: nat, file: File, ts: nat, n: nat): (es: seq<Event>)
    ensures |es| == n
  {
    seq(n, _ => Open(hash, file, ts))
  }

  lemma SameOpensFront(hash: nat, file: File, ts: nat, n: nat)
    requires n > 0
    ensures var es := SameOpens(hash, file, ts, n); es[..n - 1] == SameOpens(hash, file, ts, n - 1)
  {
  }

  // One entry with the key meets one open of it at the same time.
  lemma OneEntryCounts(e: Entry, hash: nat, file: File)
    requires e.hash == hash
    ensures Swept(Window(e.ts), [e], 0) == [e]
    ensures Step([e], Open(hash, file, e.ts)).0 == [e.(count := (e.count + 1) % TWO_32)]
    ensures Wraps([e], Open(hash, file, e.ts)) <==> e.count == TWO_32 - 1
  {
    assert Swept(Window(e.ts), [e], 0) == Swept(Window(e.ts), [e], 1);
    assert IndexOf([e], hash) == 0;
  }

  lemma {:induction false} SameOpensCount(hash: nat, file: File, ts: nat, n: nat)
    requires 0 < n < TWO_32
    ensures RunTable(SameOpens(hash, file, ts, n)) == [Entry(hash, ts, n, file)]
    ensures NeverWraps(SameOpens(hash, file, ts, n))
  {
    SameOpensFront(hash, file, ts, n);
    if n == 1 {
      var es := SameOpens(hash, file, ts, 1);
      assert es[..0] == [];
    } else {
      SameOpensCount(hash, file, ts, n - 1);
      OneEntryCounts(Entry(hash, ts, n - 1, file), hash, file);
    }
  }

  lemma {:induction false} WrapStays(es: seq<Event>, n: nat)
    requires n <= |es| && !NeverWraps(es[..n])
    ensures !NeverWraps(es)
  {
    if n == |es| {
      assert es[..n] == es;
    } else {
      assert es[..|es| - 1][..n] == es[..n];
      WrapStays(es[..|es| - 1], n);
    }
  }

  // The condition of the conservation law can fail: 2^32 opens of one key within the
  // window wrap its counter, fewer do not.
  lemma ManyOpensWrap(hash: nat, file: File, ts: nat, n: nat)
    ensures NeverWraps(SameOpens(hash, file, ts, n)) <==> n < 0x1_0000_0000
  {
    var es := SameOpens(hash, file, ts, n);
    if 0 < n < TWO_32 {
      SameOpensCount(hash, file, ts, n);
    } else if n > 0 {
      SameOpensCount(hash, file, ts, TWO_32 - 1);
      SameOpensFront(hash, file, ts, TWO_32);
      OneEntryCounts(Entry(hash, ts, TWO_32 - 1, file), hash, file);
      assert es[..TWO_32] == SameOpens(hash, file, ts, TWO_32);
      WrapStays(es, TWO_32);
    }
  }

  // And then the books do not balance.
  lemma ManyOpensAreLost(hash: nat, file: File, ts: nat)
    ensures !Balanced(hash, SameOpens(hash, file, ts, 0x1_0000_0000))
  {
    var es := SameOpens(hash, file, ts, TWO_32);
    var front := SameOpens(hash, file, ts, TWO_32 - 1);
    SameOpensFront(hash, file, ts, TWO_32);
    SameOpensCount(hash, file, ts, TWO_32 - 1);
    OneEntryCounts(Entry(hash, ts, TWO_32 - 1, file), hash, file);
    RunOk(front);
    Conservation(front);
    assert Balanced(hash, front);
    RunStepBalance(hash, es);
  }

  // ---- The static table ----

  class Dedup {
    const hashes: array<Entry>
    var count: nat

    ghost predicate Valid()
      reads this, hashes
    {
      hashes.Length == MAX_FILE_HASHES && count <= MAX_FILE_HASHES && TableOk(hashes[..count])
    }

    ghost function Live(): seq<Entry>
      requires Valid()
      reads this, hashes
    {
      hashes[..count]
    }

    constructor ()
      ensures Valid() && Live() == [] && fresh(hashes)
    {
      hashes := new Entry[MAX_FILE_HASHES](_ => Entry(0, 0, 0, File(0, "", "", 0)));
      count := 0;
    }

    // The clean-up loop at the head of get_file_open_count.
    method ExpireOld(ts: nat) returns (lines: seq<Line>)
      requires Valid()
      modifies this, hashes
      ensures Valid() && Live() == Swept(Window(ts), old(Live()), 0)
      ensures lines == Aggregates(Window(ts), Reported(Removed(Window(ts), old(Live()), 0)))
    {
      hide TableOk, Reported, Swept, Removed;
      NoneReported();
      var w := Window(ts);
      ghost var was := Live();
      SweptOk(w, was, 0);
      var out: seq<Entry> := [];
      ghost var gone: seq<Entry> := [];
      var i := 0;
      while i < count
        invariant 0 <= i <= count <= MAX_FILE_HASHES
        invariant Swept(w, hashes[..count], i) == Swept(w, was, 0)
        invariant gone + Removed(w, hashes[..count], i) == Removed(w, was, 0)
        invariant out == Reported(gone)
        decreases count - i
      {
        ghost var s := hashes[..count];
        SweepTurn(w, s, i);
        if (ts - hashes[i].ts) % TWO_64 > WINDOW_NS {
          assert gone + ([s[i]] + Removed(w, SwapOut(s, i), i)) == gone + [s[i]] + Removed(w, SwapOut(s, i), i);
          gone := gone + [hashes[i]];
          ReportedNext(gone[..|gone| - 1], hashes[i]);
          assert gone[..|gone| - 1] + [hashes[i]] == gone;
          if hashes[i].count > 1 {
            out := out + [hashes[i]];
          }
          hashes[i] := hashes[count - 1];
          count := count - 1;
          assert hashes[..count] == SwapOut(s, i);
        } else {
          i := i + 1;
        }
      }
      SweepTurn(w, hashes[..count], count);
      assert gone + [] == gone;
      lines := Aggregates(w, out);
    }

    // The rest of get_file_open_count: 0 for a duplicate, 1 for a first occurrence.
    method Remember(hash: nat, file: File, ts: nat) returns (report: nat)
      requires Valid()
      modifies this, hashes
      ensures Valid() && OpenResult(Live(), report == 1) == Record(old(Live()), hash, file, ts)
      ensures report <= 1
    {
      ghost var was := Live();
      RecordOk(was, hash, file, ts);
      for i := 0 to count
        invariant forall k :: 0 <= k < i ==> hashes[k].hash != hash
        invariant hashes[..count] == was
      {
        if hashes[i].hash == hash {
          hashes[i] := hashes[i].(count := (hashes[i].count + 1) % TWO_32, ts := ts);
          assert i == IndexOf(was, hash);
          assert hashes[..count] == Record(was, hash, file, ts).table;
          return 0;
        }
      }
      assert IndexOf(was, hash) == -1;
      if count < MAX_FILE_HASHES {
        hashes[count] := Entry(hash, ts, 1, file);
        count := count + 1;
        assert hashes[..count] == Record(was, hash, file, ts).table;
      }
      return 1;
    }

    // get_file_open_count for an open that passed the limiter
    method OpenCount(hash: nat, file: File, ts: nat) returns (report: nat, lines: seq<Line>)
      requires Valid()
      modifies this, hashes
      ensures Valid() && report <= 1
      ensures (Live(), lines + if report == 1 then [Single(hash, file, ts)] else []) == OpenStep(old(Live()), hash, file, ts)
    {
      lines := ExpireOld(ts);
      report := Remember(hash, file, ts);
    }

    // flush_pid_file_opens
    method FlushPid(pid: int) returns (lines: seq<Line>)
      requires Valid()
      modifies this, hashes
      ensures Valid() && (Live(), lines) == ExitStep(old(Live()), pid)
    {
      hide TableOk, Reported, DeadOnes, Swept;
      var w := ExitOf(pid);
      ghost var was := Live();
      SweptOk(w, was, 0);
      var out: seq<Entry> := [];
      NoneDeadYet(w, was);
      for i := 0 to count
        invariant count == |was| <= MAX_FILE_HASHES && hashes[..count] == was
        invariant out == Reported(DeadOnes(w, was[..i]))
      {
        DeadNext(w, was, i);
        ReportedNext(DeadOnes(w, was[..i]), was[i]);
        if hashes[i].file.pid == pid && hashes[i].count > 1 {
          out := out + [hashes[i]];
        }
      }
      assert was[..count] == was;
      lines := Aggregates(w, out);
      var i := 0;
      while i < count
        invariant 0 <= i <= count <= MAX_FILE_HASHES
        invariant Swept(w, hashes[..count], i) == Swept(w, was, 0)
        decreases count - i
      {
        ghost var s := hashes[..count];
        SweepTurn(w, s, i);
        if hashes[i].file.pid == pid {
          hashes[i] := hashes[count - 1];
          count := count - 1;
          assert hashes[..count] == SwapOut(s, i);
        } else {
          i := i + 1;
        }
      }
      SweepTurn(w, hashes[..count], count);
    }
  }
}
