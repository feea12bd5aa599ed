// The per-second file-open limiter of bpf/process.c: should_rate_limit_file and
// the slot removal at process exit.
module RateLimit {
  import opened Search

  const MAX_PID_LIMITS := 256
  const MAX_DISTINCT_FILES_PER_SEC := 30
  const NS_PER_SECOND := 1_000_000_000
  const TWO_32 := 0x1_0000_0000

  // distinct_file_count is a uint32_t and wraps.
  datatype Limit = Limit(pid: int, second: nat, count: nat, warn: bool)

  function SecondOf(ts: nat): nat {
    ts / NS_PER_SECOND
  }

  lemma SecondIs(ts: nat, sec: nat)
    ensures SecondOf(ts) == sec <==> sec * 1_000_000_000 <= ts < (sec + 1) * 1_000_000_000
  {
  }

  // Index of the first slot of pid, or -1.
  function SlotOf(ls: seq<Limit>, pid: int): (r: int)
    ensures -1 <= r < |ls|
    ensures r >= 0 ==> ls[r].pid == pid && forall i :: 0 <= i < r ==> ls[i].pid != pid
    ensures r < 0 ==> forall i :: 0 <= i < |ls| ==> ls[i].pid != pid
  {
    FirstWhere(ls, (l: Limit) => l.pid == pid)
  }

  // Counting one open in a slot.
  function Bump(l: Limit, second: nat): (r: Limit)
    ensures r.pid == l.pid
  {
    var reset := if l.second != second then Limit(l.pid, second, 0, false) else l;
    var count := (reset.count + 1) % TWO_32;
    reset.(count := count, warn := reset.warn || count > MAX_DISTINCT_FILES_PER_SEC)
  }

  datatype Verdict = Verdict(limits: seq<Limit>, drop: bool, addWarning: bool)

  function Check(ls: seq<Limit>, pid: int, ts: nat): Verdict {
    var sec := SecondOf(ts);
    var i := SlotOf(ls, pid);
    if i >= 0 then
      var l := Bump(ls[i], sec);
      Verdict(ls[i := l], l.count > MAX_DISTINCT_FILES_PER_SEC, ls[i].second != sec && ls[i].warn)
    else if |ls| < MAX_PID_LIMITS then
      Verdict(ls + [Bump(Limit(pid, sec, 0, false), sec)], false, false)
    else
      Verdict(ls, false, false)
  }

  // Removal of a slot by overwriting it with the last one.
  function SwapRemove(ls: seq<Limit>, i: nat): (r: seq<Limit>)
    requires i < |ls|
    ensures |r| == |ls| - 1
  {
    ls[i := ls[|ls| - 1]][..|ls| - 1]
  }

  // Index of the first slot of pid with a warning pending, or -1.
  function WarnSlotOf(ls: seq<Limit>, pid: int): (r: int)
    ensures -1 <= r < |ls|
    ensures r >= 0 ==> ls[r].pid == pid && ls[r].warn && forall i :: 0 <= i < r ==> !(ls[i].pid == pid && ls[i].warn)
    ensures r < 0 ==> forall i :: 0 <= i < |ls| ==> !(ls[i].pid == pid && ls[i].warn)
  {
    FirstWhere(ls, (l: Limit) => l.pid == pid && l.warn)
  }

  // What a reported exit does: true and the slot gone if a warning was pending.
  function AtExit(ls: seq<Limit>, pid: int): (seq<Limit>, bool) {
    var i := WarnSlotOf(ls, pid);
    if i >= 0 then (SwapRemove(ls, i), true) else (ls, false)
  }

  // ---- Runs ----

  datatype Event = Open(pid: int, ts: nat) | Exit(pid: int)

  function Run(es: seq<Event>): seq<Limit> {
    if es == [] then []
    else
      var ls := Run(es[..|es| - 1]);
      match es[|es| - 1]
      case Open(pid, ts) => Check(ls, pid, ts).limits
      case Exit(pid) => AtExit(ls, pid).0
  }

  ghost predicate Unique(ls: seq<Limit>) {
    forall i, j :: 0 <= i < j < |ls| ==> ls[i].pid != ls[j].pid
  }

  predicate Holds(ls: seq<Limit>, pid: int) {
    SlotOf(ls, pid) >= 0
  }

  // How many of the latest opens of pid in a row, since it got its slot, fell in
  // second sec.
  function Streak(es: seq<Event>, pid: int, sec: nat): nat {
    if es == [] || !Holds(Run(es), pid) then 0
    else
      var before, e := es[..|es| - 1], es[|es| - 1];
      if e.Open? && e.pid == pid then
        if SecondOf(e.ts) == sec then Streak(before, pid, sec) + 1 else 0
      else Streak(before, pid, sec)
  }

  // The slot of pid, or the one it would get.
  function Before(ls: seq<Limit>, pid: int, sec: nat): Limit {
    if Holds(ls, pid) then ls[SlotOf(ls, pid)] else Limit(pid, sec, 0, false)
  }

  // A slot describes the run when it counts the current streak of its PID.
  ghost predicate Describes(l: Limit, es: seq<Event>, pid: int) {
    var k := Streak(es, pid, l.second);
    && k >= 1 && l.count == k % 0x1_0000_0000 && (l.warn <==> k > 30)
    && forall sec :: sec != l.second ==> Streak(es, pid, sec) == 0
  }

  lemma SlotIs(ls: seq<Limit>, i: nat)
    requires Unique(ls) && i < |ls|
    ensures SlotOf(ls, ls[i].pid) == i
  {
  }

  lemma CheckKeeps(ls: seq<Limit>, pid: int, ts: nat)
    requires Unique(ls) && |ls| <= 256
    ensures var ls' := Check(ls, pid, ts).limits;
      && Unique(ls') && |ls'| <= 256
      && (Holds(ls', pid) <==> Holds(ls, pid) || |ls| < 256)
      && (Holds(ls', pid) ==> ls'[SlotOf(ls', pid)] == Bump(Before(ls, pid, SecondOf(ts)), SecondOf(ts)))
      && (forall p :: p != pid ==> SlotOf(ls', p) == SlotOf(ls, p) && (Holds(ls, p) ==> ls'[SlotOf(ls', p)] == ls[SlotOf(ls, p)]))
  {
    hide SecondOf, Bump;
    var ls' := Check(ls, pid, ts).limits;
    var i := SlotOf(ls, pid);
    if i >= 0 {
      SlotIs(ls', i);
    } else if |ls| < MAX_PID_LIMITS {
      SlotIs(ls', |ls|);
    }
    forall p | p != pid ensures SlotOf(ls', p) == SlotOf(ls, p) {
      var k := SlotOf(ls, p);
      if k >= 0 { SlotIs(ls', k); }
    }
  }

  lemma SwapKeeps(ls: seq<Limit>, i: nat, p: int)
    requires Unique(ls) && i < |ls|
    ensures var ls' := SwapRemove(ls, i);
      && (Holds(ls', p) <==> Holds(ls, p) && p != ls[i].pid)
      && (Holds(ls', p) ==> ls'[SlotOf(ls', p)] == ls[SlotOf(ls, p)])
  {
    var ls' := SwapRemove(ls, i);
    var k := SlotOf(ls, p);
    if k >= 0 && k != i {
      SlotIs(ls', if k == |ls| - 1 then i else k);
    }
  }

  lemma AtExitKeeps(ls: seq<Limit>, pid: int)
    requires Unique(ls)
    ensures var (ls', warned) := AtExit(ls, pid);
      && Unique(ls') && |ls'| <= |ls|
      && (warned <==> Holds(ls, pid) && ls[SlotOf(ls, pid)].warn)
      && (Holds(ls', pid) <==> Holds(ls, pid) && !warned)
      && (!warned ==> ls' == ls)
      && (forall p :: p != pid ==> (Holds(ls', p) <==> Holds(ls, p)) && (Holds(ls, p) ==> ls'[SlotOf(ls', p)] == ls[SlotOf(ls, p)]))
  {
    var i := WarnSlotOf(ls, pid);
    if i >= 0 {
      SlotIs(ls, i);
      forall p { SwapKeeps(ls, i, p); }
    }
  }

  lemma NoSlots(pid: int)
    ensures Unique([]) && SlotOf([], pid) < 0
  {
  }

  lemma BumpLaw(before: seq<Event>, pid: int, ts: nat)
    requires var ls := Run(before); Holds(ls, pid) ==> Describes(ls[SlotOf(ls, pid)], before, pid)
    ensures var sec := SecondOf(ts); var l := Bump(Before(Run(before), pid, sec), sec);
      var k := Streak(before, pid, sec) + 1;
      l.second == sec && l.count == k % TWO_32 && (l.warn <==> k > MAX_DISTINCT_FILES_PER_SEC)
  {
    hide SecondOf, Run;
    var sec := SecondOf(ts);
    BumpCounts(Before(Run(before), pid, sec), sec, Streak(before, pid, sec));
  }

  lemma BumpCounts(l: Limit, sec: nat, k: nat)
    requires if l.second == sec then l.count == k % TWO_32 && (l.warn <==> k > MAX_DISTINCT_FILES_PER_SEC) else k == 0
    ensures var l' := Bump(l, sec);
      l'.second == sec && l'.count == (k + 1) % TWO_32 && (l'.warn <==> k + 1 > MAX_DISTINCT_FILES_PER_SEC)
  {
    assert (k % TWO_32 + 1) % TWO_32 == (k + 1) % TWO_32;
  }

  // An event that is no open of the PID leaves its streaks.
  lemma StreakStays(es: seq<Event>, pid: int, l: Limit)
    requires es != [] && Holds(Run(es), pid) && Holds(Run(es[..|es| - 1]), pid)
    requires var e := es[|es| - 1]; !(e.Open? && e.pid == pid)
    requires Describes(l, es[..|es| - 1], pid)
    ensures Describes(l, es, pid)
  {
    hide Run, Holds, SecondOf;
    forall sec ensures Streak(es, pid, sec) == Streak(es[..|es| - 1], pid, sec) {}
  }

  // An open of it extends the streak of its second and ends all others.
  lemma StreakGrows(es: seq<Event>, pid: int)
    requires es != [] && Holds(Run(es), pid)
    requires var e := es[|es| - 1]; e.Open? && e.pid == pid
    ensures forall sec :: Streak(es, pid, sec)
                          == if sec == SecondOf(es[|es| - 1].ts) then Streak(es[..|es| - 1], pid, sec) + 1 else 0
  {
    hide Run, Holds, SecondOf;
  }

  // In every run: one slot a PID; its counter is the length of the current streak
  // (as a uint32), its second that of the PID's latest open, and the warning flag
  // says exactly that the streak exceeded the limit.
  lemma {:induction false} SlotLaw(es: seq<Event>, pid: int)
    ensures var ls := Run(es);
      && Unique(ls) && |ls| <= 256
      && (Holds(ls, pid) ==> Describes(ls[SlotOf(ls, pid)], es, pid))
  {
    hide SecondOf, Bump, SlotOf, Check, AtExit, Unique, Streak;
    if es == [] {
      NoSlots(pid);
    } else {
      var before, e := es[..|es| - 1], es[|es| - 1];
      SlotLaw(before, pid);
      var ls, ls' := Run(before), Run(es);
      match e
      case Open(p, ts) =>
        CheckKeeps(ls, p, ts);
        if Holds(ls', pid) {
          if p == pid {
            BumpLaw(before, pid, ts);
            StreakGrows(es, pid);
          } else {
            StreakStays(es, pid, ls'[SlotOf(ls', pid)]);
          }
        }
      case Exit(p) =>
        AtExitKeeps(ls, p);
        if Holds(ls', pid) { StreakStays(es, pid, ls'[SlotOf(ls', pid)]); }
    }
  }

  // The limiter's promise. An open of a PID that has or gets a slot is dropped
  // exactly when it is not among the first 30 of its second (up to the wrap of the
  // 32-bit counter); without a slot it always passes. The warning is announced on
  // the first open of a later second exactly when the earlier one went over.
  lemma DropLaw(es: seq<Event>, pid: int, ts: nat)
    ensures var ls := Run(es); var v := Check(ls, pid, ts);
      var k := Streak(es, pid, SecondOf(ts)) + 1;
      && (v.drop <==> (Holds(ls, pid) || |ls| < 256) && k % 0x1_0000_0000 > 30)
      && (v.addWarning <==> Holds(ls, pid) && var sec := ls[SlotOf(ls, pid)].second;
            sec != SecondOf(ts) && Streak(es, pid, sec) > 30)
  {
    SlotLaw(es, pid);
    BumpLaw(es, pid, ts);
  }

  // A reported exit announces a pending warning exactly when the streak went over,
  // and then, and only then, frees the slot.
  lemma ExitLaw(es: seq<Event>, pid: int)
    ensures var ls := Run(es); var (ls', warned) := AtExit(ls, pid);
      && (warned <==> Holds(ls, pid) && Streak(es, pid, ls[SlotOf(ls, pid)].second) > 30)
      && (Holds(ls', pid) <==> Holds(ls, pid) && !warned)
  {
    SlotLaw(es, pid);
    AtExitKeeps(Run(es), pid);
  }

  // n opens of one PID at one time.
  function SameOpens(pid: int, ts: nat, n: nat): (es: seq<Event>)
    ensures |es| == n
  {
    seq(n, _ => Open(pid, ts))
  }

  lemma {:induction false} SameOpensStreak(pid: int, ts: nat, n: nat)
    requires n > 0
    ensures var es := SameOpens(pid, ts, n); Holds(Run(es), pid) && Streak(es, pid, SecondOf(ts)) == n
  {
    hide SecondOf, Bump, SlotOf;
    var es := SameOpens(pid, ts, n);
    assert es[..n - 1] == SameOpens(pid, ts, n - 1);
    SlotLaw(es[..n - 1], pid);
    CheckKeeps(Run(es[..n - 1]), pid, ts);
    if n > 1 {
      SameOpensStreak(pid, ts, n - 1);
    }
  }

  // So within one second exactly the opens numbered up to 30 pass, and again those up to
  // 30 of every further 2^32.
  lemma WrapLetsThrough(pid: int, ts: nat, n: nat)
    ensures Check(Run(SameOpens(pid, ts, n)), pid, ts).drop <==> (n + 1) % 0x1_0000_0000 > 30
  {
    DropLaw(SameOpens(pid, ts, n), pid, ts);
    if n > 0 {
      SameOpensStreak(pid, ts, n);
    }
  }

  lemma FirstOpen(pid: int, sec: nat)
    ensures Bump(Limit(pid, sec, 0, false), sec).count == 1
  {
  }

  // ---- The static table ----

  class Limiter {
    const limits: array<Limit>
    var count: nat

    ghost predicate Valid()
      reads this, limits
    {
      limits.Length == MAX_PID_LIMITS && count <= MAX_PID_LIMITS && Unique(limits[..count])
    }

    ghost function Live(): seq<Limit>
      requires Valid()
      reads this, limits
    {
      limits[..count]
    }

    constructor ()
      ensures Valid() && Live() == [] && fresh(limits)
    {
      limits := new Limit[MAX_PID_LIMITS](_ => Limit(0, 0, 0, false));
      count := 0;
    }

    method Find(pid: int) returns (at: int)
      requires Valid()
      ensures at == SlotOf(Live(), pid)
    {
      for i := 0 to count
        invariant forall k :: 0 <= k < i ==> limits[k].pid != pid
      {
        if limits[i].pid == pid {
          return i;
        }
      }
      return -1;
    }

    // should_rate_limit_file, once the slot is found or made
    static method CountOpen(slot: Limit, sec: nat) returns (limit: Limit, addWarning: bool)
      ensures limit == Bump(slot, sec) && addWarning == (slot.second != sec && slot.warn)
    {
      limit, addWarning := slot, false;
      if limit.second != sec {
        if limit.warn {
          addWarning := true;
          limit := limit.(warn := false);
        }
        limit := limit.(second := sec, count := 0);
      }
      limit := limit.(count := (limit.count + 1) % TWO_32);
      if limit.count > MAX_DISTINCT_FILES_PER_SEC {
        limit := limit.(warn := true);
      }
    }

    // should_rate_limit_file
    method ShouldRateLimit(pid: int, ts: nat) returns (drop: bool, addWarning: bool)
      requires Valid()
      modifies this, limits
      ensures Valid() && Verdict(Live(), drop, addWarning) == Check(old(Live()), pid, ts)
    {
      hide SecondOf, Unique, Holds, Bump;
      ghost var was := Live();
      CheckKeeps(was, pid, ts);
      var sec := SecondOf(ts);
      var at := Find(pid);
      if at < 0 && count < MAX_PID_LIMITS {
        at := count;
        limits[at] := Limit(pid, sec, 0, false);
        count := count + 1;
        FirstOpen(pid, sec);
      }
      if at < 0 {
        return false, false;
      }
      var limit;
      limit, addWarning := CountOpen(limits[at], sec);
      drop := limit.count > MAX_DISTINCT_FILES_PER_SEC;
      limits[at] := limit;
      assert limits[..count] == Check(was, pid, ts).limits;
    }

    // The loop over pid_limits in the exit branch of handle_event.
    method TakeWarning(pid: int) returns (addWarning: bool)
      requires Valid()
      modifies this, limits
      ensures Valid() && (Live(), addWarning) == AtExit(old(Live()), pid)
    {
      ghost var was := Live();
      AtExitKeeps(was, pid);
      var at := FindWarned(pid);
      if at < 0 {
        return false;
      }
      count := count - 1;
      limits[at] := limits[count];
      assert limits[..count] == SwapRemove(was, at);
      return true;
    }

    method FindWarned(pid: int) returns (at: int)
      requires Valid()
      ensures at == WarnSlotOf(Live(), pid)
    {
      for i := 0 to count
        invariant forall k :: 0 <= k < i ==> !(limits[k].pid == pid && limits[k].warn)
      {
        if limits[i].pid == pid && limits[i].warn {
          return i;
        }
      }
      return -1;
    }
  }
}
