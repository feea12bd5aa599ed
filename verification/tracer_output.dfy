// What the process tracer tracks and prints for each event, in every mode, with and
// without a session: on the tracked PIDs, spelled out.
module TracerOutput {
  import opened PidTable
  import opened PidTracker
  import opened TracerModel
  import opened FileHash
  import RateLimit
  import FileDedup

  // ---- Which execs are taken ----

  // An exec is taken by its session alone if there is one; else by mode, target, parent or
  // command; and in mode PROC always.
  predicate Taken(cfg: Config, m: map<int, int>, e: Event)
    requires e.Exec?
  {
    || cfg.filters.mode == Proc
    || (cfg.sessionId > 0 && e.sid == cfg.sessionId)
    || (cfg.sessionId <= 0 &&
          (cfg.filters.mode == All
           || (cfg.filters.targetPid > 0 && e.pid == cfg.filters.targetPid)
           || e.ppid in m
           || e.comm in cfg.filters.commands))
  }

  lemma TakenIs(cfg: Config, st: State, e: Event)
    requires Good(st) && e.Exec?
    ensures AddsOnExec(cfg, st.slots, e) <==> Taken(cfg, Contents(st.slots), e)
  {
    hide Explains, Distinct, AllTracked, Contents, FindFrom, IsTracked;
    TrackedIsMember(st.slots, e.ppid);
  }

  // What an event does to the tracked PIDs, in every mode.
  lemma StepTracksAll(cfg: Config, st: State, e: Event)
    requires Good(st)
    ensures var m, st' := Contents(st.slots), Step(cfg, st, e).0;
      && Good(st')
      && Contents(st'.slots) ==
           match e
           case Exec(pid, ppid, _, _) =>
             if Taken(cfg, m, e) && pid !in m && |m| < |st.slots| then m[pid := ppid] else m
           case Exit(pid, _) => m - {pid}
           case _ => m
  {
    hide Explains, Distinct, AllTracked, Contents, Add, FindFrom, Taken, AddsOnExec, PidTable.Remove;
    match e
    case Exec(pid, ppid, _, _) =>
      TakenIs(cfg, st, e);
      AddCapped(st.slots, pid, ppid);
      var m := Contents(st.slots);
      assert pid !in m ==> |m[pid := ppid]| == |m| + 1 by { assert m[pid := ppid].Keys == m.Keys + {pid}; }
    case Exit(pid, _) => RemoveAgrees(st.slots, pid);
    case _ =>
  }

  // What one seed does: a new PID is tracked with its parent while there is room, on both
  // sides; a known one is left as it is.
  lemma SeedTracks(st: State, seed: Seed)
    requires Good(st)
    ensures var m, st' := Contents(st.slots), SeedStep(st, seed);
      var taken := seed.pid !in m && |m| < |st.slots|;
      && Good(st')
      && Contents(st'.slots) == (if taken then m[seed.pid := seed.ppid] else m)
      && (forall p :: p in st'.kernel <==>
            p in st.kernel || (taken && p == seed.pid > 0 && |st.kernel| < |st.slots|))
  {
    hide Explains, Distinct, AllTracked, Contents, Add, FindFrom, IsTracked;
    TrackedIsMember(st.slots, seed.pid);
    AddCapped(st.slots, seed.pid, seed.ppid);
  }

  // Whether e takes its process whatever came before: in a session, or outside filter mode.
  predicate TakenAnyway(cfg: Config, e: Event)
    requires e.Exec?
  {
    cfg.filters.mode == Proc || (cfg.sessionId > 0 && e.sid == cfg.sessionId) || (cfg.sessionId <= 0 && cfg.filters.mode == All)
  }

  // es[i] started pid, was taken with room for it, and pid has not exited since.
  ghost predicate Started(cfg: Config, n: nat, seeds: seq<Seed>, es: seq<Event>, pid: int, i: nat)
    requires n > 0
  {
    && i < |es| && es[i].Exec? && es[i].pid == pid && TakenAnyway(cfg, es[i])
    && Fits(cfg, n, seeds, es[..i], es[i]) && NoExit(es[i + 1..], pid)
  }

  ghost predicate EverStarted(cfg: Config, n: nat, seeds: seq<Seed>, es: seq<Event>, pid: int)
    requires n > 0
  {
    exists i: nat :: Started(cfg, n, seeds, es, pid, i)
  }

  lemma StartedStays(cfg: Config, n: nat, seeds: seq<Seed>, es: seq<Event>, pid: int, i: nat)
    requires n > 0 && i + 1 < |es|
    ensures var front, e := es[..|es| - 1], es[|es| - 1];
      Started(cfg, n, seeds, es, pid, i) <==> Started(cfg, n, seeds, front, pid, i) && !(e.Exit? && e.pid == pid)
  {
    hide Fits, TakenAnyway;
    var front, e := es[..|es| - 1], es[|es| - 1];
    assert es[i + 1..] == front[i + 1..] + [e] && es[..i] == front[..i] && es[i] == front[i];
  }

  lemma StartedLast(cfg: Config, n: nat, seeds: seq<Seed>, es: seq<Event>, pid: int)
    requires n > 0 && es != []
    ensures var front, e := es[..|es| - 1], es[|es| - 1];
      Started(cfg, n, seeds, es, pid, |es| - 1) <==>
        e.Exec? && e.pid == pid && TakenAnyway(cfg, e) && Fits(cfg, n, seeds, front, e)
  {
    hide Fits, TakenAnyway;
    assert es[|es| - 1 + 1..] == [];
  }

  lemma StartedSteps(cfg: Config, n: nat, seeds: seq<Seed>, es: seq<Event>, pid: int)
    requires n > 0 && es != []
    ensures var front, e := es[..|es| - 1], es[|es| - 1];
      EverStarted(cfg, n, seeds, es, pid) <==>
        || (EverStarted(cfg, n, seeds, front, pid) && !(e.Exit? && e.pid == pid))
        || (e.Exec? && e.pid == pid && TakenAnyway(cfg, e) && Fits(cfg, n, seeds, front, e))
  {
    var front, e := es[..|es| - 1], es[|es| - 1];
    StartedLast(cfg, n, seeds, es, pid);
    forall i: nat | i + 1 < |es| {
      StartedStays(cfg, n, seeds, es, pid, i);
    }
    StartedWithin(cfg, n, seeds, front, pid);
    StartedWithin(cfg, n, seeds, es, pid);
    hide Started, Fits, TakenAnyway;
    if i: nat :| Started(cfg, n, seeds, es, pid, i) {
      if i < |front| { assert Started(cfg, n, seeds, front, pid, i); }
    }
    if i: nat :| Started(cfg, n, seeds, front, pid, i) {
      if !(e.Exit? && e.pid == pid) { assert Started(cfg, n, seeds, es, pid, i); }
    }
  }

  lemma StartedWithin(cfg: Config, n: nat, seeds: seq<Seed>, es: seq<Event>, pid: int)
    requires n > 0
    ensures forall i: nat :: Started(cfg, n, seeds, es, pid, i) ==> i < |es|
  {
  }

  lemma RunTracksAll(cfg: Config, n: nat, seeds: seq<Seed>, es: seq<Event>, pid: int)
    requires n > 0 && es != [] && !SelectsByTree(cfg)
    ensures var front, e := es[..|es| - 1], es[|es| - 1];
      InRun(cfg, n, seeds, es, pid) <==>
        || (InRun(cfg, n, seeds, front, pid) && !(e.Exit? && e.pid == pid))
        || (e.Exec? && e.pid == pid && TakenAnyway(cfg, e) && Fits(cfg, n, seeds, front, e))
  {
    hide Explains, Distinct, AllTracked, Contents, Add, FindFrom, Step;
    var front, e := es[..|es| - 1], es[|es| - 1];
    var st := Run(cfg, n, seeds, front);
    RunGood(cfg, n, seeds, front);
    StepTracksAll(cfg, st, e);
    if e.Exec? { AddCapped(st.slots, e.pid, e.ppid); }
  }

  // In every mode but the selection by process tree, and in every session: a PID is tracked
  // if and only if it is a seed that found room and has not exited, or was started by an
  // exec that is taken, found room, and has not exited since.
  lemma {:induction false} TrackedIffStarted(cfg: Config, n: nat, seeds: seq<Seed>, es: seq<Event>, pid: int)
    requires n > 0 && !SelectsByTree(cfg)
    ensures InRun(cfg, n, seeds, es, pid) <==>
      (pid in Roots(n, seeds, true) && NoExit(es, pid)) || EverStarted(cfg, n, seeds, es, pid)
    decreases |es|
  {
    hide InRun, Fits, TakenAnyway, Roots;
    if es == [] {
      StartTracks(cfg, n, seeds, pid);
    } else {
      var front, e := es[..|es| - 1], es[|es| - 1];
      TrackedIffStarted(cfg, n, seeds, front, pid);
      RunTracksAll(cfg, n, seeds, es, pid);
      StartedSteps(cfg, n, seeds, es, pid);
      assert es == front + [e];
      hide EverStarted;
      assert NoExit(es, pid) <==> NoExit(front, pid) && !(e.Exit? && e.pid == pid);
    }
  }

  // ---- What is printed ----

  // An exec line: outside filter mode always, in it for the processes taken.
  lemma ExecPrints(cfg: Config, st: State, e: Event)
    requires Good(st) && e.Exec?
    ensures Step(cfg, st, e).1 ==
      if cfg.filters.mode != Filter || Taken(cfg, Contents(st.slots), e) then [ExecLine(e.pid)] else []
  {
    hide Explains, Distinct, AllTracked, Contents, Add, FindFrom, IsTracked;
    TrackedIsMember(st.slots, e.ppid);
  }

  lemma ReadlinePrints(cfg: Config, st: State, pid: int)
    requires Good(st)
    ensures Step(cfg, st, Readline(pid)) ==
      (st, if cfg.filters.mode != Filter || pid in Contents(st.slots) then [ReadlineLine(pid)] else [])
  {
    hide Explains, Distinct, AllTracked, Contents, FindFrom, IsTracked;
    TrackedIsMember(st.slots, pid);
  }

  lemma UnknownPrints(cfg: Config, st: State, kind: int)
    requires Good(st)
    ensures Step(cfg, st, Unknown(kind)) == (st, [UnknownLine(kind)])
  {
  }

  // Lines that carry no warning.
  ghost predicate Bare(out: seq<Out>, lines: seq<FileDedup.Line>) {
    |out| == |lines| && forall i :: 0 <= i < |lines| ==> out[i] == FileLine(lines[i], false)
  }

  // An exit: nothing for an untracked process in filter mode; else its line, the warning
  // exactly when its limiter slot has one pending, the aggregates of its opens, and the
  // flush of its summaries, in that order.
  lemma ExitPrints(cfg: Config, st: State, pid: int, ts: nat)
    requires Good(st) && RateLimit.Unique(st.limits)
    ensures var out := Step(cfg, st, Exit(pid, ts)).1;
      if cfg.filters.mode == Filter && pid !in Contents(st.slots) then out == []
      else
        var warned := exists i :: 0 <= i < |st.limits| && st.limits[i].pid == pid && st.limits[i].warn;
        var head := if warned then [ExitLine(pid), WarningLine(pid)] else [ExitLine(pid)];
        var lines := FileDedup.ExitStep(st.files, pid).1;
        && |out| == |head| + |lines| + 1
        && out[..|head|] == head && Bare(out[|head|..|head| + |lines|], lines) && out[|out| - 1] == FlushSummaries(pid)
  {
    hide Explains, Distinct, AllTracked, Contents, FindFrom, IsTracked, FileDedup.ExitStep, RateLimit.SwapRemove, PidTable.Remove;
    TrackedIsMember(st.slots, pid);
    if ReportsExit(cfg, st.slots, pid) { ExitOutput(cfg, st, pid, ts); }
  }

  lemma ExitOutput(cfg: Config, st: State, pid: int, ts: nat)
    requires |st.slots| > 0 && ReportsExit(cfg, st.slots, pid)
    ensures var out := Step(cfg, st, Exit(pid, ts)).1;
      var warned := RateLimit.WarnSlotOf(st.limits, pid) >= 0;
      var head := if warned then [ExitLine(pid), WarningLine(pid)] else [ExitLine(pid)];
      out == head + FileOut(FileDedup.ExitStep(st.files, pid).1, false) + [FlushSummaries(pid)]
  {
    hide IsTracked, FileDedup.ExitStep, RateLimit.SwapRemove, PidTable.Remove, FileOut;
    var lines := FileOut(FileDedup.ExitStep(st.files, pid).1, false);
    assert [ExitLine(pid)] + [WarningLine(pid)] == [ExitLine(pid), WarningLine(pid)];
    assert [ExitLine(pid)] + [] == [ExitLine(pid)];
  }

  // An open: nothing of closes, of untracked processes outside mode ALL, and of opens that
  // the limiter drops; else the lines of the dedup table, of which only the open's own
  // carries the limiter's warning.
  lemma FilePrints(cfg: Config, st: State, e: Event)
    requires Good(st) && e.FileOp?
    ensures var out := Step(cfg, st, e).1;
      var v := RateLimit.Check(st.limits, e.file.pid, e.ts);
      if !e.isOpen || (cfg.filters.mode != All && e.file.pid !in Contents(st.slots)) || v.drop then out == []
      else
        var lines := FileDedup.OpenStep(st.files, HashFile(e.file), e.file, e.ts).1;
        |out| == |lines| && forall i :: 0 <= i < |lines| ==> out[i] == FileLine(lines[i], v.addWarning && lines[i].Single?)
  {
    hide Explains, Distinct, AllTracked, Contents, FindFrom, IsTracked, HashFile, RateLimit.Check, FileDedup.OpenStep;
    TrackedIsMember(st.slots, e.file.pid);
  }
}
