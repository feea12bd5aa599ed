// The event loop of bpf/process.c as a transition function over the PID tracker,
// the kernel's tracked_pids set, the open-dedup table and the rate limiter, and
// what holds of it over whole runs.
module TracerModel {
  import opened PidTable
  import opened PidTracker
  import opened FileHash
  import RateLimit
  import FileDedup

  datatype Seed = Seed(pid: int, ppid: int)

  datatype Config = Config(filters: Filters, sessionId: int)

  // sid is what getsid(pid) returns for the process.
  datatype Event =
    | Exec(pid: int, ppid: int, comm: string, sid: int)
    | Exit(pid: int, ts: nat)
    | Readline(pid: int)
    | FileOp(isOpen: bool, file: FileDedup.File, ts: nat)
    | Unknown(kind: int)

  datatype State = State(slots: seq<Slot>, kernel: set<int>, files: seq<FileDedup.Entry>, limits: seq<RateLimit.Limit>)

  // A file line carries the warning of the previous second when there is one.
  datatype Out =
    | ExecLine(pid: int)
    | ExitLine(pid: int)
    | WarningLine(pid: int)
    | ReadlineLine(pid: int)
    | FileLine(line: FileDedup.Line, warned: bool)
    | FlushSummaries(pid: int)
    | UnknownLine(kind: int)

  // ---- One event ----

  // should_track_event_process
  predicate ShouldTrack(cfg: Config, slots: seq<Slot>, e: Event)
    requires e.Exec? && |slots| > 0
  {
    if cfg.sessionId > 0 then e.sid == cfg.sessionId
    else Wanted(cfg.filters, e.comm, e.pid, IsTracked(slots, e.ppid))
  }

  // add_tracked_pid_to_bpf: the kernel map has as many entries as the tracker.
  function KernelAdd(kernel: set<int>, cap: nat, pid: int): set<int> {
    if pid <= 0 || (pid !in kernel && |kernel| >= cap) then kernel else kernel + {pid}
  }

  // remove_tracked_pid_from_bpf
  function KernelRemove(kernel: set<int>, pid: int): set<int> {
    if pid <= 0 then kernel else kernel - {pid}
  }

  // Which sets the two calls leave, by membership.
  lemma KernelAddIs(kernel: set<int>, cap: nat, pid: int, after: set<int>)
    requires forall p :: p in after <==> p in kernel || (p == pid && pid > 0 && |kernel| < cap)
    ensures after == KernelAdd(kernel, cap, pid)
  {
    var r := KernelAdd(kernel, cap, pid);
    assert forall p :: p in r <==> p in after;
  }

  lemma KernelRemoveIs(kernel: set<int>, pid: int, after: set<int>)
    requires forall p :: p in after <==> p in kernel && !(p == pid && pid > 0)
    ensures after == KernelRemove(kernel, pid)
  {
    var r := KernelRemove(kernel, pid);
    assert forall p :: p in r <==> p in after;
  }

  function SeedStep(st: State, seed: Seed): State
    requires |st.slots| > 0
  {
    var already := IsTracked(st.slots, seed.pid);
    var r := Add(st.slots, seed.pid, seed.ppid);
    st.(slots := r.slots,
        kernel := if r.ok && !already then KernelAdd(st.kernel, |st.slots|, seed.pid) else st.kernel)
  }

  predicate AddsOnExec(cfg: Config, slots: seq<Slot>, e: Event)
    requires e.Exec? && |slots| > 0
  {
    ShouldTrack(cfg, slots, e) || cfg.filters.mode.Proc?
  }

  function ExecStep(cfg: Config, st: State, e: Event): (State, seq<Out>)
    requires e.Exec? && |st.slots| > 0
  {
    var st' :=
      if AddsOnExec(cfg, st.slots, e) then
        st.(slots := Add(st.slots, e.pid, e.ppid).slots, kernel := KernelAdd(st.kernel, |st.slots|, e.pid))
      else st;
    (st', if ShouldTrack(cfg, st.slots, e) || !cfg.filters.mode.Filter? then [ExecLine(e.pid)] else [])
  }

  // An exit is reported unless the PID is untracked in filter mode.
  predicate ReportsExit(cfg: Config, slots: seq<Slot>, pid: int)
    requires |slots| > 0
  {
    IsTracked(slots, pid) || !cfg.filters.mode.Filter?
  }

  function ExitStep(cfg: Config, st: State, pid: int): (State, seq<Out>)
    requires |st.slots| > 0
  {
    var gone := st.(slots := Remove(st.slots, pid), kernel := KernelRemove(st.kernel, pid));
    if !ReportsExit(cfg, st.slots, pid) then (gone, [])
    else
      var (limits, warned) := RateLimit.AtExit(st.limits, pid);
      var (files, lines) := FileDedup.ExitStep(st.files, pid);
      (gone.(limits := limits, files := files),
       [ExitLine(pid)] + (if warned then [WarningLine(pid)] else []) + FileOut(lines, false) + [FlushSummaries(pid)])
  }

  // Only the line of the open itself carries the warning.
  function FileOut(lines: seq<FileDedup.Line>, warned: bool): (r: seq<Out>)
    ensures |r| == |lines|
  {
    seq(|lines|, i requires 0 <= i < |lines| => FileLine(lines[i], warned && lines[i].Single?))
  }

  predicate ReportsFile(cfg: Config, slots: seq<Slot>, pid: int)
    requires |slots| > 0
  {
    cfg.filters.mode.All? || IsTracked(slots, pid)
  }

  function FileStep(cfg: Config, st: State, e: Event): (State, seq<Out>)
    requires e.FileOp? && |st.slots| > 0
  {
    if !e.isOpen || !ReportsFile(cfg, st.slots, e.file.pid) then (st, [])
    else
      var v := RateLimit.Check(st.limits, e.file.pid, e.ts);
      if v.drop then (st.(limits := v.limits), [])
      else
        var (files, lines) := FileDedup.OpenStep(st.files, HashFile(e.file), e.file, e.ts);
        (st.(limits := v.limits, files := files), FileOut(lines, v.addWarning))
  }

  function Step(cfg: Config, st: State, e: Event): (State, seq<Out>)
    requires |st.slots| > 0
  {
    match e
    case Exec(_, _, _, _) => ExecStep(cfg, st, e)
    case Exit(pid, _) => ExitStep(cfg, st, pid)
    case Readline(pid) =>
      (st, if !cfg.filters.mode.Filter? || IsTracked(st.slots, pid) then [ReadlineLine(pid)] else [])
    case FileOp(_, _, _) => FileStep(cfg, st, e)
    case Unknown(kind) => (st, [UnknownLine(kind)])
  }

  // ---- Runs ----

  function Seeded(n: nat, seeds: seq<Seed>): (st: State)
    requires n > 0
    ensures |st.slots| == n && st.files == [] && st.limits == []
  {
    if seeds == [] then State(Empty(n), {}, [], [])
    else SeedStep(Seeded(n, seeds[..|seeds| - 1]), seeds[|seeds| - 1])
  }

  function Run(cfg: Config, n: nat, seeds: seq<Seed>, es: seq<Event>): (st: State)
    requires n > 0
    ensures |st.slots| == n
  {
    if es == [] then Seeded(n, seeds)
    else Step(cfg, Run(cfg, n, seeds, es[..|es| - 1]), es[|es| - 1]).0
  }

  function Output(cfg: Config, n: nat, seeds: seq<Seed>, es: seq<Event>): seq<Out>
    requires n > 0
  {
    if es == [] then []
    else
      var front := es[..|es| - 1];
      Output(cfg, n, seeds, front) + Step(cfg, Run(cfg, n, seeds, front), es[|es| - 1]).1
  }

  ghost predicate Good(st: State) {
    Inv(st.slots)
  }

  lemma StepGood(cfg: Config, st: State, e: Event)
    requires Good(st)
    ensures Good(Step(cfg, st, e).0)
  {
    hide Distinct, AllTracked, Explains, Contents, Add, FindFrom, PidTable.Remove;
    match e
    case Exec(pid, ppid, _, _) => AddCapped(st.slots, pid, ppid);
    case Exit(pid, _) => RemoveAgrees(st.slots, pid);
    case Readline(_) =>
    case FileOp(_, _, _) =>
    case Unknown(_) =>
  }

  lemma TrackedIsMember(s: seq<Slot>, pid: int)
    requires Inv(s)
    ensures IsTracked(s, pid) <==> pid in Contents(s)
  {
    FindAgrees(s, pid);
  }

  // ---- What seeding tracks ----

  // The seeds given, or those of them for which there was room.
  function Roots(n: nat, seeds: seq<Seed>, fit: bool): set<int>
    requires n > 0
  {
    if seeds == [] then {}
    else
      var front, s := seeds[..|seeds| - 1], seeds[|seeds| - 1];
      Roots(n, front, fit) + if !fit || Add(Seeded(n, front).slots, s.pid, s.ppid).ok then {s.pid} else {}
  }

  // What seeding tracks.
  lemma {:induction false} SeedsTracked(n: nat, seeds: seq<Seed>)
    requires n > 0
    ensures var st := Seeded(n, seeds); Good(st) && Contents(st.slots).Keys == Roots(n, seeds, true)
  {
    hide Distinct, AllTracked, Explains, Contents, Add, FindFrom;
    if seeds == [] {
      EmptyAgrees(n);
    } else {
      var front, s := seeds[..|seeds| - 1], seeds[|seeds| - 1];
      SeedsTracked(n, front);
      AddCapped(Seeded(n, front).slots, s.pid, s.ppid);
      var m := Contents(Seeded(n, front).slots);
      assert m[s.pid := s.ppid].Keys == m.Keys + {s.pid};
      assert s.pid in m ==> m.Keys + {s.pid} == m.Keys;
    }
  }

  // No insertion of the seeding met a full table.
  predicate SeedsFit(n: nat, seeds: seq<Seed>)
    requires n > 0
  {
    seeds == [] ||
    var front, s := seeds[..|seeds| - 1], seeds[|seeds| - 1];
    SeedsFit(n, front) && Add(Seeded(n, front).slots, s.pid, s.ppid).ok
  }

  lemma {:induction false} RootsFit(n: nat, seeds: seq<Seed>)
    requires n > 0
    ensures Roots(n, seeds, true) <= Roots(n, seeds, false)
    ensures SeedsFit(n, seeds) ==> Roots(n, seeds, true) == Roots(n, seeds, false)
  {
    if seeds != [] { RootsFit(n, seeds[..|seeds| - 1]); }
  }

  lemma {:induction false} RootsAreSeeds(n: nat, seeds: seq<Seed>, pid: int)
    requires n > 0
    ensures pid in Roots(n, seeds, false) <==> exists s :: s in seeds && s.pid == pid
  {
    if seeds != [] {
      var front, last := seeds[..|seeds| - 1], seeds[|seeds| - 1];
      RootsAreSeeds(n, front, pid);
      assert seeds == front + [last];
      assert last in seeds;
    }
  }

  // ---- The kernel set follows the tracker ----

  ghost predicate Synced(st: State) {
    Good(st) && st.kernel == Contents(st.slots).Keys && forall p :: p in st.kernel ==> p > 0
  }

  // Adding one PID on both sides keeps them equal exactly unless the tracker takes a
  // new PID that is not positive, which the kernel map never holds.
  lemma AddKeepsSync(st: State, pid: int, ppid: int)
    requires Synced(st)
    ensures var m := Contents(st.slots); var r := Add(st.slots, pid, ppid);
      && Good(st.(slots := r.slots))
      && (Synced(st.(slots := r.slots, kernel := KernelAdd(st.kernel, |st.slots|, pid)))
          <==> pid > 0 || pid in m || |m| >= |st.slots|)
  {
    hide Distinct, AllTracked, Explains, Contents, Add, FindFrom;
    AddCapped(st.slots, pid, ppid);
    var m := Contents(st.slots);
    assert |m| == |m.Keys|;
    assert m[pid := ppid].Keys == m.Keys + {pid};
    Capacity(st.slots);
  }

  lemma RootsGrow(n: nat, seeds: seq<Seed>)
    requires n > 0 && seeds != []
    ensures var front, last := seeds[..|seeds| - 1], seeds[|seeds| - 1];
      Roots(n, seeds, true) == Roots(n, front, true) + if Add(Seeded(n, front).slots, last.pid, last.ppid).ok then {last.pid} else {}
  {
  }

  lemma SeedStepSyncs(st: State, s: Seed)
    requires Synced(st) && (Add(st.slots, s.pid, s.ppid).ok ==> s.pid > 0)
    ensures Synced(SeedStep(st, s))
  {
    hide Distinct, AllTracked, Explains, Contents, Add, FindFrom, IsTracked;
    AddKeepsSync(st, s.pid, s.ppid);
    AddCapped(st.slots, s.pid, s.ppid);
    TrackedIsMember(st.slots, s.pid);
  }

  // Every seed taken is positive.
  ghost predicate PositiveRoots(n: nat, seeds: seq<Seed>)
    requires n > 0
  {
    forall p :: p in Roots(n, seeds, true) ==> p > 0
  }

  // After seeding both sides agree if and only if every seed taken is positive.
  lemma {:induction false} SeedsKeepSync(n: nat, seeds: seq<Seed>)
    requires n > 0
    ensures Synced(Seeded(n, seeds)) <==> PositiveRoots(n, seeds)
  {
    hide Distinct, AllTracked, Explains, Contents, Add, FindFrom, IsTracked;
    SeedsTracked(n, seeds);
    if seeds == [] {
      EmptyAgrees(n);
    } else {
      hide SeedStep;
      var front, s := seeds[..|seeds| - 1], seeds[|seeds| - 1];
      SeedsKeepSync(n, front);
      RootsGrow(n, seeds);
      if PositiveRoots(n, seeds) {
        SeedStepSyncs(Seeded(n, front), s);
      }
    }
  }

  lemma StepKeepsSync(cfg: Config, st: State, e: Event)
    requires Synced(st)
    ensures var m := Contents(st.slots);
      Synced(Step(cfg, st, e).0) <==>
        !(e.Exec? && AddsOnExec(cfg, st.slots, e) && e.pid <= 0 && e.pid !in m && |m| < |st.slots|)
  {
    match e
    case Exec(pid, ppid, _, _) => AddKeepsSync(st, pid, ppid);
    case Exit(pid, _) =>
      RemoveAgrees(st.slots, pid);
      assert (Contents(st.slots) - {pid}).Keys == Contents(st.slots).Keys - {pid};
    case Readline(_) =>
    case FileOp(_, _, _) =>
    case Unknown(_) =>
  }

  // (pid_t)
  function ToPid(x: int): (pid: int)
    ensures -0x8000_0000 <= pid < 0x8000_0000 && (pid - x) % 0x1_0000_0000 == 0
  {
    var r := x % 0x1_0000_0000;
    if r < 0x8000_0000 then r else r - 0x1_0000_0000
  }

  // parse_seed_pid_arg on the numbers read: the range is checked before the cast.
  function SeedsFromArg(pid: int, ppid: int): seq<Seed> {
    if pid <= 0 || ppid < 0 then [] else [Seed(ToPid(pid), ToPid(ppid))]
  }

  lemma OneRoot(n: nat, s: Seed)
    requires n > 0
    ensures Roots(n, [s], true) == {s.pid}
  {
    hide FindFrom, Explains;
    assert [s][..0] == [];
    EmptyAgrees(n);
    AddCapped(Empty(n), s.pid, s.ppid);
  }

  // So a seed argument keeps both sides in step if and only if its PID is positive as a
  // 32-bit number.
  lemma SeedArgSyncs(n: nat, pid: int, ppid: int)
    requires n > 0 && pid > 0 && ppid >= 0
    ensures Synced(Seeded(n, SeedsFromArg(pid, ppid))) <==> 0 < pid % 0x1_0000_0000 < 0x8000_0000
  {
    hide Synced, Seeded, Roots;
    OneRoot(n, Seed(ToPid(pid), ToPid(ppid)));
    SeedsKeepSync(n, SeedsFromArg(pid, ppid));
  }

  // Not all are: these arguments pass the check and leave both sides different.
  lemma WideSeedUnsyncs(n: nat, ppid: int)
    requires n > 0 && ppid >= 0
    ensures SeedsFromArg(0x1_0000_0000, ppid) == [Seed(0, ToPid(ppid))]
    ensures !Synced(Seeded(n, SeedsFromArg(0x1_0000_0000, ppid)))
    ensures !Synced(Seeded(n, SeedsFromArg(3_000_000_000, ppid)))
  {
    hide Synced, Seeded;
    SeedArgSyncs(n, 0x1_0000_0000, ppid);
    SeedArgSyncs(n, 3_000_000_000, ppid);
  }

  ghost predicate SyncedThroughout(cfg: Config, n: nat, seeds: seq<Seed>, es: seq<Event>)
    requires n > 0
  {
    forall k :: 0 <= k <= |es| ==> Synced(Run(cfg, n, seeds, es[..k]))
  }

  // e makes the tracker take a PID that the kernel map refuses.
  predicate TakesNonPositive(cfg: Config, st: State, e: Event)
    requires |st.slots| > 0
  {
    e.Exec? && AddsOnExec(cfg, st.slots, e) && e.pid <= 0 && Add(st.slots, e.pid, e.ppid).ok
  }

  // Neither seeding nor any event of the run does.
  ghost predicate TakesPositives(cfg: Config, n: nat, seeds: seq<Seed>, es: seq<Event>)
    requires n > 0
  {
    if es == [] then PositiveRoots(n, seeds)
    else
      var front := es[..|es| - 1];
      TakesPositives(cfg, n, seeds, front) && !TakesNonPositive(cfg, Run(cfg, n, seeds, front), es[|es| - 1])
  }

  lemma NextKeepsSync(cfg: Config, st: State, e: Event)
    requires Synced(st)
    ensures Synced(Step(cfg, st, e).0) <==> !TakesNonPositive(cfg, st, e)
  {
    hide Distinct, AllTracked, Explains, Contents, Add, FindFrom, AddsOnExec, Step;
    StepKeepsSync(cfg, st, e);
    if e.Exec? { AddCapped(st.slots, e.pid, e.ppid); }
  }

  lemma ThroughoutUnrolls(cfg: Config, n: nat, seeds: seq<Seed>, es: seq<Event>)
    requires n > 0
    ensures SyncedThroughout(cfg, n, seeds, es) <==>
      Synced(Run(cfg, n, seeds, es)) && (es != [] ==> SyncedThroughout(cfg, n, seeds, es[..|es| - 1]))
  {
    hide Synced, Run;
    assert es[..|es|] == es;
    if es != [] {
      var front := es[..|es| - 1];
      assert forall k :: 0 <= k <= |front| ==> es[..k] == front[..k];
      if SyncedThroughout(cfg, n, seeds, es) {
        forall k | 0 <= k <= |front| ensures Synced(Run(cfg, n, seeds, front[..k])) {
          assert Synced(Run(cfg, n, seeds, es[..k]));
        }
      }
      if SyncedThroughout(cfg, n, seeds, front) && Synced(Run(cfg, n, seeds, es)) {
        forall k | 0 <= k <= |es| ensures Synced(Run(cfg, n, seeds, es[..k])) {
          if k < |es| { assert Synced(Run(cfg, n, seeds, front[..k])); }
        }
      }
    }
  }

  // Userspace and kernel hold the same PIDs after seeding and after every event, even
  // when the table is full, if and only if only positive PIDs are ever taken.
  lemma {:induction false} RunKeepsSync(cfg: Config, n: nat, seeds: seq<Seed>, es: seq<Event>)
    requires n > 0
    ensures SyncedThroughout(cfg, n, seeds, es) <==> TakesPositives(cfg, n, seeds, es)
  {
    hide Synced, TakesNonPositive, SyncedThroughout, PositiveRoots, Step;
    ThroughoutUnrolls(cfg, n, seeds, es);
    if es == [] {
      SeedsKeepSync(n, seeds);
    } else {
      var front := es[..|es| - 1];
      RunKeepsSync(cfg, n, seeds, front);
      ThroughoutUnrolls(cfg, n, seeds, front);
      if Synced(Run(cfg, n, seeds, front)) {
        NextKeepsSync(cfg, Run(cfg, n, seeds, front), es[|es| - 1]);
      }
    }
  }

  // In particular in every run whose seeds and exec events name positive PIDs, as the
  // kernel's exec events do.
  lemma {:induction false} PositivePidsSync(cfg: Config, n: nat, seeds: seq<Seed>, es: seq<Event>)
    requires n > 0 && forall s :: s in seeds ==> s.pid > 0
    requires forall e :: e in es && e.Exec? ==> e.pid > 0
    ensures TakesPositives(cfg, n, seeds, es) && SyncedThroughout(cfg, n, seeds, es)
  {
    hide Run, Add, AddsOnExec, SyncedThroughout;
    if es == [] {
      RootsFit(n, seeds);
      forall p | p in Roots(n, seeds, true) ensures p > 0 { RootsAreSeeds(n, seeds, p); }
    } else {
      assert es[|es| - 1] in es;
      PositivePidsSync(cfg, n, seeds, es[..|es| - 1]);
    }
    RunKeepsSync(cfg, n, seeds, es);
  }

  // ---- Why a PID is tracked ----

  predicate NoExit(es: seq<Event>, pid: int) {
    forall e :: e in es ==> !(e.Exit? && e.pid == pid)
  }

  predicate WantedItself(cfg: Config, e: Event)
    requires e.Exec?
  {
    (cfg.filters.targetPid > 0 && e.pid == cfg.filters.targetPid) || e.comm in cfg.filters.commands
  }

  // There was room for the process that e starts after front.
  predicate Fits(cfg: Config, n: nat, seeds: seq<Seed>, front: seq<Event>, e: Event)
    requires n > 0 && e.Exec?
  {
    Add(Run(cfg, n, seeds, front).slots, e.pid, e.ppid).ok
  }

  // c lists exec events in order: the last one started pid, each of the others
  // started the parent of the next, and no process on the way had exited when it was
  // needed. The first is the target, matches a command, or has a seed as parent; an
  // empty chain means that pid is itself a seed. With fit, there was room for each of
  // them; without, the chain does not depend on the table.
  ghost predicate Chain(cfg: Config, n: nat, seeds: seq<Seed>, es: seq<Event>, c: seq<nat>, pid: int, fit: bool)
    requires n > 0
    decreases |c|
  {
    if c == [] then
      pid in Roots(n, seeds, fit) && NoExit(es, pid)
    else
      var i := c[|c| - 1];
      && i < |es| && es[i].Exec? && es[i].pid == pid && NoExit(es[i + 1..], pid)
      && (fit ==> Fits(cfg, n, seeds, es[..i], es[i]))
      && ((|c| == 1 && WantedItself(cfg, es[i])) || Chain(cfg, n, seeds, es[..i], c[..|c| - 1], es[i].ppid, fit))
  }

  predicate SelectsByTree(cfg: Config) {
    cfg.filters.mode.Filter? && cfg.sessionId <= 0
  }

  lemma ChainExtends(cfg: Config, n: nat, seeds: seq<Seed>, es: seq<Event>, c: seq<nat>, pid: int, fit: bool, e: Event)
    requires n > 0 && Chain(cfg, n, seeds, es, c, pid, fit) && !(e.Exit? && e.pid == pid)
    ensures Chain(cfg, n, seeds, es + [e], c, pid, fit)
  {
    hide Fits, Roots;
    if c != [] {
      var i := c[|c| - 1];
      assert (es + [e])[i + 1..] == es[i + 1..] + [e];
      assert (es + [e])[..i] == es[..i];
    }
  }

  lemma ChainRetracts(cfg: Config, n: nat, seeds: seq<Seed>, es: seq<Event>, c: seq<nat>, pid: int, fit: bool)
    requires n > 0 && es != [] && Chain(cfg, n, seeds, es, c, pid, fit)
    requires c == [] || c[|c| - 1] < |es| - 1
    ensures Chain(cfg, n, seeds, es[..|es| - 1], c, pid, fit)
    ensures !(es[|es| - 1].Exit? && es[|es| - 1].pid == pid)
  {
    hide Fits, Roots;
    var front := es[..|es| - 1];
    assert es[|es| - 1] in es;
    if c != [] {
      var i := c[|c| - 1];
      assert es[i + 1..] == front[i + 1..] + [es[|es| - 1]];
      assert front[..i] == es[..i];
    }
  }

  lemma {:induction false} RunGood(cfg: Config, n: nat, seeds: seq<Seed>, es: seq<Event>)
    requires n > 0
    ensures Good(Run(cfg, n, seeds, es))
  {
    if es == [] {
      SeedsTracked(n, seeds);
    } else {
      RunGood(cfg, n, seeds, es[..|es| - 1]);
      StepGood(cfg, Run(cfg, n, seeds, es[..|es| - 1]), es[|es| - 1]);
    }
  }

  // What one event does to the set of tracked PIDs.
  lemma StepTracks(cfg: Config, st: State, e: Event, pid: int)
    requires Good(st) && SelectsByTree(cfg)
    ensures var m := Contents(st.slots); var st' := Step(cfg, st, e).0;
      && Good(st')
      && (pid in Contents(st'.slots) <==>
           (pid in m && !(e.Exit? && e.pid == pid))
           || (e.Exec? && e.pid == pid && (WantedItself(cfg, e) || e.ppid in m) && Add(st.slots, pid, e.ppid).ok))
  {
    hide Distinct, AllTracked, Explains, Contents, Add, FindFrom, PidTable.Remove;
    StepGood(cfg, st, e);
    match e
    case Exec(p, ppid, _, _) =>
      AddCapped(st.slots, p, ppid);
      TrackedIsMember(st.slots, ppid);
    case Exit(p, _) => RemoveAgrees(st.slots, p);
    case Readline(_) =>
    case FileOp(_, _, _) =>
    case Unknown(_) =>
  }

  ghost predicate InRun(cfg: Config, n: nat, seeds: seq<Seed>, es: seq<Event>, pid: int)
    requires n > 0
  {
    Good(Run(cfg, n, seeds, es)) && pid in Contents(Run(cfg, n, seeds, es).slots)
  }

  // One event of a run, in the terms of chains.
  lemma RunTracks(cfg: Config, n: nat, seeds: seq<Seed>, es: seq<Event>, pid: int)
    requires n > 0 && SelectsByTree(cfg) && es != []
    ensures var front, e := es[..|es| - 1], es[|es| - 1];
      InRun(cfg, n, seeds, es, pid) <==>
        || (InRun(cfg, n, seeds, front, pid) && !(e.Exit? && e.pid == pid))
        || (e.Exec? && e.pid == pid && (WantedItself(cfg, e) || InRun(cfg, n, seeds, front, e.ppid)) && Fits(cfg, n, seeds, front, e))
  {
    hide Distinct, AllTracked, Explains, Contents, Add, FindFrom, Step, WantedItself;
    RunGood(cfg, n, seeds, es[..|es| - 1]);
    StepTracks(cfg, Run(cfg, n, seeds, es[..|es| - 1]), es[|es| - 1], pid);
  }

  lemma StartTracks(cfg: Config, n: nat, seeds: seq<Seed>, pid: int)
    requires n > 0
    ensures InRun(cfg, n, seeds, [], pid) <==> pid in Roots(n, seeds, true)
  {
    SeedsTracked(n, seeds);
  }

  // In filter mode without a session, whatever is tracked descends from a seed, the
  // target or a command match through exec events for which there was room.
  lemma {:induction false} TrackedHasChain(cfg: Config, n: nat, seeds: seq<Seed>, es: seq<Event>, pid: int) returns (c: seq<nat>)
    requires n > 0 && SelectsByTree(cfg) && InRun(cfg, n, seeds, es, pid)
    ensures Chain(cfg, n, seeds, es, c, pid, true)
    decreases |es|
  {
    hide InRun, Fits, WantedItself, Roots;
    if es == [] {
      StartTracks(cfg, n, seeds, pid);
      c := [];
    } else {
      var front, e := es[..|es| - 1], es[|es| - 1];
      RunTracks(cfg, n, seeds, es, pid);
      assert es == front + [e];
      if InRun(cfg, n, seeds, front, pid) && !(e.Exit? && e.pid == pid) {
        c := TrackedHasChain(cfg, n, seeds, front, pid);
        ChainExtends(cfg, n, seeds, front, c, pid, true, e);
      } else {
        assert es[|es| - 1 + 1..] == [];
        if WantedItself(cfg, e) {
          c := [|es| - 1];
        } else {
          var up := TrackedHasChain(cfg, n, seeds, front, e.ppid);
          c := up + [|es| - 1];
          assert c[..|c| - 1] == up;
        }
      }
    }
  }

  // Conversely, every such chain is honoured.
  lemma {:induction false} ChainTracked(cfg: Config, n: nat, seeds: seq<Seed>, es: seq<Event>, c: seq<nat>, pid: int)
    requires n > 0 && SelectsByTree(cfg) && Chain(cfg, n, seeds, es, c, pid, true)
    ensures InRun(cfg, n, seeds, es, pid)
    decreases |es|
  {
    hide InRun, Fits, WantedItself, Roots;
    if es == [] {
      StartTracks(cfg, n, seeds, pid);
    } else {
      var front, e := es[..|es| - 1], es[|es| - 1];
      RunTracks(cfg, n, seeds, es, pid);
      if c != [] && c[|c| - 1] == |es| - 1 {
        if !(|c| == 1 && WantedItself(cfg, e)) {
          ChainTracked(cfg, n, seeds, front, c[..|c| - 1], e.ppid);
        }
      } else {
        ChainRetracts(cfg, n, seeds, es, c, pid, true);
        ChainTracked(cfg, n, seeds, front, c, pid);
      }
    }
  }

  ghost predicate HasChain(cfg: Config, n: nat, seeds: seq<Seed>, es: seq<Event>, pid: int, fit: bool)
    requires n > 0
  {
    exists c :: Chain(cfg, n, seeds, es, c, pid, fit)
  }

  // Tracking by process tree: a PID is tracked if and only if an unbroken chain of execs,
  // for each of which there was room, leads to it.
  lemma TrackedIffChain(cfg: Config, n: nat, seeds: seq<Seed>, es: seq<Event>, pid: int)
    requires n > 0 && SelectsByTree(cfg)
    ensures IsTracked(Run(cfg, n, seeds, es).slots, pid) <==> HasChain(cfg, n, seeds, es, pid, true)
  {
    hide Chain, Run, IsTracked;
    RunGood(cfg, n, seeds, es);
    TrackedIsMember(Run(cfg, n, seeds, es).slots, pid);
    if InRun(cfg, n, seeds, es, pid) {
      var c := TrackedHasChain(cfg, n, seeds, es, pid);
    }
    if c :| Chain(cfg, n, seeds, es, c, pid, true) {
      ChainTracked(cfg, n, seeds, es, c, pid);
    }
  }

  // Nor did one of the run.
  predicate NeverFull(cfg: Config, n: nat, seeds: seq<Seed>, es: seq<Event>)
    requires n > 0
  {
    if es == [] then SeedsFit(n, seeds)
    else
      var front, e := es[..|es| - 1], es[|es| - 1];
      NeverFull(cfg, n, seeds, front) && (e.Exec? ==> Fits(cfg, n, seeds, front, e))
  }

  lemma {:induction false} NeverFullFits(cfg: Config, n: nat, seeds: seq<Seed>, es: seq<Event>, i: nat)
    requires n > 0 && NeverFull(cfg, n, seeds, es) && i <= |es|
    ensures NeverFull(cfg, n, seeds, es[..i]) && SeedsFit(n, seeds)
    ensures i < |es| && es[i].Exec? ==> Fits(cfg, n, seeds, es[..i], es[i])
  {
    hide Fits, SeedsFit;
    if i < |es| {
      var front := es[..|es| - 1];
      assert front[..i] == es[..i];
      NeverFullFits(cfg, n, seeds, front, i);
    } else {
      assert es[..i] == es;
      if es != [] {
        assert es[..|es| - 1][..|es| - 1] == es[..|es| - 1];
        NeverFullFits(cfg, n, seeds, es[..|es| - 1], |es| - 1);
      }
    }
  }

  // A chain for which there was room is a chain; without a full table, the reverse.
  lemma {:induction false} ChainFits(cfg: Config, n: nat, seeds: seq<Seed>, es: seq<Event>, c: seq<nat>, pid: int)
    requires n > 0
    ensures Chain(cfg, n, seeds, es, c, pid, true) ==> Chain(cfg, n, seeds, es, c, pid, false)
    ensures NeverFull(cfg, n, seeds, es) && Chain(cfg, n, seeds, es, c, pid, false) ==> Chain(cfg, n, seeds, es, c, pid, true)
    decreases |c|
  {
    hide NeverFull, Fits, Roots, WantedItself, NoExit;
    RootsFit(n, seeds);
    if NeverFull(cfg, n, seeds, es) { NeverFullFits(cfg, n, seeds, es, 0); }
    if c != [] && c[|c| - 1] < |es| && es[c[|c| - 1]].Exec? {
      var i := c[|c| - 1];
      if NeverFull(cfg, n, seeds, es) { NeverFullFits(cfg, n, seeds, es, i); }
      ChainFits(cfg, n, seeds, es[..i], c[..|c| - 1], es[i].ppid);
    }
  }

  // Stated without the table: whatever is tracked descends from a seed, the target or a
  // command match, and in runs that never met a full table this is an equivalence.
  lemma TrackedDescends(cfg: Config, n: nat, seeds: seq<Seed>, es: seq<Event>, pid: int)
    requires n > 0 && SelectsByTree(cfg)
    ensures IsTracked(Run(cfg, n, seeds, es).slots, pid) ==> HasChain(cfg, n, seeds, es, pid, false)
    ensures NeverFull(cfg, n, seeds, es) ==>
      (IsTracked(Run(cfg, n, seeds, es).slots, pid) <==> HasChain(cfg, n, seeds, es, pid, false))
  {
    hide Chain, Run, IsTracked, NeverFull;
    TrackedIffChain(cfg, n, seeds, es, pid);
    forall c {
      ChainFits(cfg, n, seeds, es, c, pid);
    }
  }

  // ---- The limiter and the dedup table see their own runs ----

  function LimiterEvent(cfg: Config, st: State, e: Event): seq<RateLimit.Event>
    requires |st.slots| > 0
  {
    match e
    case Exit(pid, _) => if ReportsExit(cfg, st.slots, pid) then [RateLimit.Exit(pid)] else []
    case FileOp(isOpen, file, ts) => if isOpen && ReportsFile(cfg, st.slots, file.pid) then [RateLimit.Open(file.pid, ts)] else []
    case _ => []
  }

  function LimiterEvents(cfg: Config, n: nat, seeds: seq<Seed>, es: seq<Event>): seq<RateLimit.Event>
    requires n > 0
  {
    if es == [] then []
    else
      var front := es[..|es| - 1];
      LimiterEvents(cfg, n, seeds, front) + LimiterEvent(cfg, Run(cfg, n, seeds, front), es[|es| - 1])
  }

  // The opens that pass the limiter, and the reported exits.
  function DedupEvent(cfg: Config, st: State, e: Event): seq<FileDedup.Event>
    requires |st.slots| > 0
  {
    match e
    case Exit(pid, _) => if ReportsExit(cfg, st.slots, pid) then [FileDedup.Exit(pid)] else []
    case FileOp(isOpen, file, ts) =>
      if isOpen && ReportsFile(cfg, st.slots, file.pid) && !RateLimit.Check(st.limits, file.pid, ts).drop
      then [FileDedup.Open(HashFile(file), file, ts)] else []
    case _ => []
  }

  function DedupEvents(cfg: Config, n: nat, seeds: seq<Seed>, es: seq<Event>): seq<FileDedup.Event>
    requires n > 0
  {
    if es == [] then []
    else
      var front := es[..|es| - 1];
      DedupEvents(cfg, n, seeds, front) + DedupEvent(cfg, Run(cfg, n, seeds, front), es[|es| - 1])
  }

  function FileLines(out: seq<Out>): seq<FileDedup.Line> {
    if out == [] then []
    else
      var o := out[|out| - 1];
      FileLines(out[..|out| - 1]) + if o.FileLine? then [o.line] else []
  }

  lemma {:induction false} FileLinesConcat(a: seq<Out>, b: seq<Out>)
    ensures FileLines(a + b) == FileLines(a) + FileLines(b)
  {
    if b == [] {
      assert a + b == a;
    } else {
      FileLinesConcat(a, b[..|b| - 1]);
      assert (a + b)[..|a + b| - 1] == a + b[..|b| - 1];
    }
  }

  lemma {:induction false} FileLinesOfFileOut(lines: seq<FileDedup.Line>, warned: bool)
    ensures FileLines(FileOut(lines, warned)) == lines
  {
    if lines != [] {
      FileLinesOfFileOut(lines[..|lines| - 1], warned);
      assert FileOut(lines, warned)[..|lines| - 1] == FileOut(lines[..|lines| - 1], warned);
    }
  }

  lemma FileLinesOne(o: Out)
    ensures FileLines([]) == []
    ensures FileLines([o]) == if o.FileLine? then [o.line] else []
  {
    assert [o][..0] == [];
  }

  lemma ExitLines(pid: int, warned: bool, lines: seq<FileDedup.Line>)
    ensures FileLines([ExitLine(pid)] + (if warned then [WarningLine(pid)] else []) + FileOut(lines, false) + [FlushSummaries(pid)]) == lines
  {
    hide FileLines, FileOut;
    var head := [ExitLine(pid)] + if warned then [WarningLine(pid)] else [];
    FileLinesOne(ExitLine(pid));
    FileLinesOne(WarningLine(pid));
    FileLinesOne(FlushSummaries(pid));
    FileLinesConcat([ExitLine(pid)], if warned then [WarningLine(pid)] else []);
    FileLinesConcat(head, FileOut(lines, false));
    FileLinesOfFileOut(lines, false);
    FileLinesConcat(head + FileOut(lines, false), [FlushSummaries(pid)]);
  }

  lemma LimiterStep(cfg: Config, st: State, e: Event, le: seq<RateLimit.Event>)
    requires |st.slots| > 0 && st.limits == RateLimit.Run(le)
    ensures Step(cfg, st, e).0.limits == RateLimit.Run(le + LimiterEvent(cfg, st, e))
  {
    var more := LimiterEvent(cfg, st, e);
    if more == [] {
      assert le + more == le;
    } else {
      assert (le + more)[..|le + more| - 1] == le;
    }
  }

  lemma {:induction false} LimiterRuns(cfg: Config, n: nat, seeds: seq<Seed>, es: seq<Event>)
    requires n > 0
    ensures Run(cfg, n, seeds, es).limits == RateLimit.Run(LimiterEvents(cfg, n, seeds, es))
  {
    if es != [] {
      var front, e := es[..|es| - 1], es[|es| - 1];
      LimiterRuns(cfg, n, seeds, front);
      LimiterStep(cfg, Run(cfg, n, seeds, front), e, LimiterEvents(cfg, n, seeds, front));
    }
  }

  lemma {:induction false} DedupRuns(cfg: Config, n: nat, seeds: seq<Seed>, es: seq<Event>)
    requires n > 0
    ensures Run(cfg, n, seeds, es).files == FileDedup.RunTable(DedupEvents(cfg, n, seeds, es))
    ensures FileLines(Output(cfg, n, seeds, es)) == FileDedup.RunLog(DedupEvents(cfg, n, seeds, es))
  {
    if es != [] {
      var front, e := es[..|es| - 1], es[|es| - 1];
      DedupRuns(cfg, n, seeds, front);
      var st := Run(cfg, n, seeds, front);
      FileLinesConcat(Output(cfg, n, seeds, front), Step(cfg, st, e).1);
      DedupNext(cfg, st, e, DedupEvents(cfg, n, seeds, front));
    }
  }

  lemma DedupNext(cfg: Config, st: State, e: Event, de: seq<FileDedup.Event>)
    requires |st.slots| > 0 && st.files == FileDedup.RunTable(de)
    ensures var (st', out) := Step(cfg, st, e); var all := de + DedupEvent(cfg, st, e);
      st'.files == FileDedup.RunTable(all) && FileDedup.RunLog(de) + FileLines(out) == FileDedup.RunLog(all)
  {
    hide Step, FileLines, ReportsExit, ReportsFile, RateLimit.Check, FileDedup.ExitStep, FileDedup.OpenStep;
    var more := DedupEvent(cfg, st, e);
    DedupStep(cfg, st, e);
    if more == [] {
      assert de + more == de;
    } else {
      assert (de + more)[..|de + more| - 1] == de;
    }
  }

  // The file lines of one event are those of the dedup table.
  lemma DedupStep(cfg: Config, st: State, e: Event)
    requires |st.slots| > 0
    ensures var (st', out) := Step(cfg, st, e);
      match e
      case Exit(pid, _) =>
        (st'.files, FileLines(out)) == if ReportsExit(cfg, st.slots, pid) then FileDedup.ExitStep(st.files, pid) else (st.files, [])
      case FileOp(isOpen, file, ts) =>
        (st'.files, FileLines(out)) ==
          if isOpen && ReportsFile(cfg, st.slots, file.pid) && !RateLimit.Check(st.limits, file.pid, ts).drop
          then FileDedup.OpenStep(st.files, HashFile(file), file, ts) else (st.files, [])
      case _ => (st'.files, FileLines(out)) == (st.files, [])
  {
    match e
    case Exec(pid, _, _, _) => FileLinesOne(ExecLine(pid));
    case Exit(pid, _) =>
      var (_, warned) := RateLimit.AtExit(st.limits, pid);
      ExitLines(pid, warned, FileDedup.ExitStep(st.files, pid).1);
    case Readline(pid) => FileLinesOne(ReadlineLine(pid));
    case FileOp(isOpen, file, ts) =>
      FileLinesOfFileOut(FileDedup.OpenStep(st.files, HashFile(file), file, ts).1, RateLimit.Check(st.limits, file.pid, ts).addWarning);
    case Unknown(kind) => FileLinesOne(UnknownLine(kind));
  }

  // Every open of the key that reached the dedup table in a run of the tracer was printed
  // at once, is in a printed aggregate line, or is in a live entry.
  ghost predicate Conserves(cfg: Config, n: nat, seeds: seq<Seed>, es: seq<Event>, hash: nat)
    requires n > 0
  {
    var lines := FileLines(Output(cfg, n, seeds, es));
    FileDedup.Opens(hash, DedupEvents(cfg, n, seeds, es)) ==
      FileDedup.Singles(hash, lines) + FileDedup.ExtraReported(hash, lines)
      + FileDedup.Extra(FileDedup.Key(hash), Run(cfg, n, seeds, es).files)
  }

  lemma ConservesIsBalanced(cfg: Config, n: nat, seeds: seq<Seed>, es: seq<Event>, hash: nat)
    requires n > 0
    ensures Conserves(cfg, n, seeds, es, hash) <==> FileDedup.Balanced(hash, DedupEvents(cfg, n, seeds, es))
  {
    DedupRuns(cfg, n, seeds, es);
  }

  // The dedup events of a run extend those of the run before its last event, if at all by one.
  lemma DedupEventsGrow(cfg: Config, n: nat, seeds: seq<Seed>, es: seq<Event>)
    requires n > 0 && es != []
    ensures var before, after := DedupEvents(cfg, n, seeds, es[..|es| - 1]), DedupEvents(cfg, n, seeds, es);
      after == before || (|after| == |before| + 1 && after[..|before|] == before)
  {
    hide Run, ReportsExit, ReportsFile, HashFile, RateLimit.Check;
  }

  lemma DedupEventsStay(cfg: Config, n: nat, seeds: seq<Seed>, es: seq<Event>)
    requires n > 0 && es != [] && FileDedup.NeverWraps(DedupEvents(cfg, n, seeds, es))
    ensures FileDedup.NeverWraps(DedupEvents(cfg, n, seeds, es[..|es| - 1]))
  {
    hide DedupEvents;
    DedupEventsGrow(cfg, n, seeds, es);
  }

  lemma TracerConserves(cfg: Config, n: nat, seeds: seq<Seed>, es: seq<Event>, hash: nat)
    requires n > 0 && FileDedup.NeverWraps(DedupEvents(cfg, n, seeds, es))
    ensures Conserves(cfg, n, seeds, es, hash)
  {
    hide DedupEvents, Conserves, FileDedup.Balanced;
    FileDedup.Conservation(DedupEvents(cfg, n, seeds, es));
    ConservesIsBalanced(cfg, n, seeds, es, hash);
  }

  // A step that wraps a counter upsets the balance of its key.
  lemma WrapUpsets(cfg: Config, n: nat, seeds: seq<Seed>, es: seq<Event>) returns (hash: nat)
    requires n > 0 && es != [] && FileDedup.NeverWraps(DedupEvents(cfg, n, seeds, es[..|es| - 1]))
    requires !FileDedup.NeverWraps(DedupEvents(cfg, n, seeds, es))
    ensures !Conserves(cfg, n, seeds, es, hash)
  {
    hide DedupEvents, Conserves, FileDedup.Balanced, FileDedup.RunTable, FileDedup.Wraps;
    var before, after := DedupEvents(cfg, n, seeds, es[..|es| - 1]), DedupEvents(cfg, n, seeds, es);
    DedupEventsGrow(cfg, n, seeds, es);
    assert after[..|after| - 1] == before;
    var e := after[|before|];
    assert FileDedup.Wraps(FileDedup.RunTable(before), e);
    WrapIsOpen(FileDedup.RunTable(before), e);
    hash := e.hash;
    FileDedup.Conservation(before);
    FileDedup.RunOk(before);
    FileDedup.RunStepBalance(hash, after);
    ConservesIsBalanced(cfg, n, seeds, es, hash);
  }

  lemma WrapIsOpen(s: seq<FileDedup.Entry>, e: FileDedup.Event)
    requires FileDedup.Wraps(s, e)
    ensures e.Open?
  {
  }

  ghost predicate ConservesThroughout(cfg: Config, n: nat, seeds: seq<Seed>, es: seq<Event>)
    requires n > 0
  {
    forall k, hash :: 0 <= k <= |es| ==> Conserves(cfg, n, seeds, es[..k], hash)
  }

  // The law for the whole tracer: opens are conserved throughout a run, for every key, if
  // and only if no 32-bit counter of the dedup table wraps.
  lemma {:induction false} TracerConservesExact(cfg: Config, n: nat, seeds: seq<Seed>, es: seq<Event>)
    requires n > 0
    ensures ConservesThroughout(cfg, n, seeds, es) <==> FileDedup.NeverWraps(DedupEvents(cfg, n, seeds, es))
  {
    hide DedupEvents, Conserves, FileDedup.NeverWraps;
    assert es[..|es|] == es;
    if es == [] {
      StartNeverWraps(cfg, n, seeds);
      forall hash ensures Conserves(cfg, n, seeds, [], hash) { TracerConserves(cfg, n, seeds, [], hash); }
    } else {
      var front := es[..|es| - 1];
      TracerConservesExact(cfg, n, seeds, front);
      assert forall k :: 0 <= k < |es| ==> es[..k] == front[..k];
      if FileDedup.NeverWraps(DedupEvents(cfg, n, seeds, es)) {
        DedupEventsStay(cfg, n, seeds, es);
        forall k, hash | 0 <= k <= |es| ensures Conserves(cfg, n, seeds, es[..k], hash) {
          if k == |es| { TracerConserves(cfg, n, seeds, es, hash); } else { assert Conserves(cfg, n, seeds, front[..k], hash); }
        }
      } else if FileDedup.NeverWraps(DedupEvents(cfg, n, seeds, front)) {
        var hash := WrapUpsets(cfg, n, seeds, es);
        assert !Conserves(cfg, n, seeds, es[..|es|], hash);
      } else {
        var k, hash :| 0 <= k <= |front| && !Conserves(cfg, n, seeds, front[..k], hash);
        assert !Conserves(cfg, n, seeds, es[..k], hash);
      }
    }
  }

  lemma StartNeverWraps(cfg: Config, n: nat, seeds: seq<Seed>)
    requires n > 0
    ensures FileDedup.NeverWraps(DedupEvents(cfg, n, seeds, []))
  {
  }

  // ---- A run of the tracer that loses opens ----

  // One open of the same file every second: never more than the limiter lets through.
  function SlowOpens(file: FileDedup.File, k: nat): (es: seq<Event>)
    ensures |es| == k
  {
    seq(k, i requires 0 <= i < k => FileOp(true, file, i * RateLimit.NS_PER_SECOND))
  }

  lemma SlowOpensFront(file: FileDedup.File, k: nat)
    requires k > 0
    ensures var es := SlowOpens(file, k);
      es[..k - 1] == SlowOpens(file, k - 1) && es[k - 1] == FileOp(true, file, (k - 1) * RateLimit.NS_PER_SECOND)
  {
  }

  // In the next second the PID's count starts again.
  lemma SlowLimit(pid: int, second: nat, ts: nat)
    requires ts == (second + 1) * RateLimit.NS_PER_SECOND
    ensures RateLimit.Check([RateLimit.Limit(pid, second, 1, false)], pid, ts)
      == RateLimit.Verdict([RateLimit.Limit(pid, second + 1, 1, false)], false, false)
  {
    assert RateLimit.SecondOf(ts) == second + 1;
    assert RateLimit.SlotOf([RateLimit.Limit(pid, second, 1, false)], pid) == 0;
  }

  lemma FirstLimit(pid: int)
    ensures RateLimit.Check([], pid, 0) == RateLimit.Verdict([RateLimit.Limit(pid, 0, 1, false)], false, false)
  {
    assert RateLimit.SecondOf(0) == 0;
  }

  // A second later the entry is still inside the window.
  lemma SlowCount(e: FileDedup.Entry, ts: nat)
    requires ts == e.ts + RateLimit.NS_PER_SECOND
    ensures FileDedup.OpenStep([e], e.hash, e.file, ts).0
      == [e.(count := (e.count + 1) % FileDedup.TWO_32, ts := ts)]
    ensures FileDedup.Wraps([e], FileDedup.Open(e.hash, e.file, ts)) <==> e.count == FileDedup.TWO_32 - 1
  {
    var w := FileDedup.Window(ts);
    assert FileDedup.Swept(w, [e], 0) == FileDedup.Swept(w, [e], 1) == [e];
    assert FileDedup.IndexOf([e], e.hash) == 0;
  }

  lemma FirstCount(hash: nat, file: FileDedup.File)
    ensures FileDedup.OpenStep([], hash, file, 0).0 == [FileDedup.Entry(hash, 0, 1, file)]
  {
  }

  lemma {:induction false} SlowOpensState(cfg: Config, n: nat, file: FileDedup.File, k: nat)
    requires n > 0 && cfg.filters.mode.All? && 0 < k < FileDedup.TWO_32
    ensures var st := Run(cfg, n, [], SlowOpens(file, k)); var ts := (k - 1) * RateLimit.NS_PER_SECOND;
      && st.limits == [RateLimit.Limit(file.pid, k - 1, 1, false)]
      && st.files == [FileDedup.Entry(HashFile(file), ts, k, file)]
  {
    hide HashFile, RateLimit.Check, FileDedup.OpenStep;
    SlowOpensFront(file, k);
    var ts := (k - 1) * RateLimit.NS_PER_SECOND;
    if k == 1 {
      FirstLimit(file.pid);
      FirstCount(HashFile(file), file);
    } else {
      SlowOpensState(cfg, n, file, k - 1);
      SlowLimit(file.pid, k - 2, ts);
      SlowCount(FileDedup.Entry(HashFile(file), (k - 2) * RateLimit.NS_PER_SECOND, k - 1, file), ts);
    }
  }

  // The dedup table gets all of them.
  lemma SlowOpensPass(cfg: Config, n: nat, file: FileDedup.File, k: nat)
    requires n > 0 && cfg.filters.mode.All? && 0 < k <= FileDedup.TWO_32
    ensures DedupEvents(cfg, n, [], SlowOpens(file, k)) == DedupEvents(cfg, n, [], SlowOpens(file, k - 1))
      + [FileDedup.Open(HashFile(file), file, (k - 1) * RateLimit.NS_PER_SECOND)]
  {
    hide HashFile, RateLimit.Check, FileDedup.OpenStep;
    SlowOpensFront(file, k);
    if k == 1 {
      FirstLimit(file.pid);
    } else {
      SlowOpensState(cfg, n, file, k - 1);
      SlowLimit(file.pid, k - 2, (k - 1) * RateLimit.NS_PER_SECOND);
    }
  }

  lemma {:induction false} SlowOpensWrap(cfg: Config, n: nat, file: FileDedup.File, k: nat)
    requires n > 0 && cfg.filters.mode.All? && k <= FileDedup.TWO_32
    ensures FileDedup.NeverWraps(DedupEvents(cfg, n, [], SlowOpens(file, k))) <==> k < FileDedup.TWO_32
  {
    hide HashFile, DedupEvents, FileDedup.Wraps;
    if k == 0 {
      StartNeverWraps(cfg, n, []);
      assert SlowOpens(file, 0) == [];
    } else {
      SlowOpensWrap(cfg, n, file, k - 1);
      SlowOpensPass(cfg, n, file, k);
      var before, after := DedupEvents(cfg, n, [], SlowOpens(file, k - 1)), DedupEvents(cfg, n, [], SlowOpens(file, k));
      assert after[..|after| - 1] == before;
      DedupRuns(cfg, n, [], SlowOpens(file, k - 1));
      if k > 1 {
        SlowOpensState(cfg, n, file, k - 1);
        SlowCount(FileDedup.Entry(HashFile(file), (k - 2) * RateLimit.NS_PER_SECOND, k - 1, file), (k - 1) * RateLimit.NS_PER_SECOND);
      } else {
        NothingWraps(HashFile(file), file);
        assert SlowOpens(file, 0) == [];
      }
    }
  }

  lemma NothingWraps(hash: nat, file: FileDedup.File)
    ensures !FileDedup.Wraps([], FileDedup.Open(hash, file, 0))
  {
  }

  // The condition of the law can fail, limiter and all: 2^32 opens of one file, a second
  // apart, are not conserved; any fewer are.
  lemma TracerLosesOpens(cfg: Config, n: nat, file: FileDedup.File, k: nat)
    requires n > 0 && cfg.filters.mode.All? && k <= FileDedup.TWO_32
    ensures ConservesThroughout(cfg, n, [], SlowOpens(file, k)) <==> k < FileDedup.TWO_32
  {
    hide ConservesThroughout, DedupEvents, FileDedup.NeverWraps;
    SlowOpensWrap(cfg, n, file, k);
    TracerConservesExact(cfg, n, [], SlowOpens(file, k));
  }

  // The limiter's promise, for the next reportable open of a run of the tracer.
  lemma TracerLimits(cfg: Config, n: nat, seeds: seq<Seed>, es: seq<Event>, pid: int, ts: nat)
    requires n > 0
    ensures var st := Run(cfg, n, seeds, es);
      var k := RateLimit.Streak(LimiterEvents(cfg, n, seeds, es), pid, RateLimit.SecondOf(ts)) + 1;
      && RateLimit.Unique(st.limits) && |st.limits| <= RateLimit.MAX_PID_LIMITS
      && (RateLimit.Check(st.limits, pid, ts).drop <==>
           (RateLimit.Holds(st.limits, pid) || |st.limits| < RateLimit.MAX_PID_LIMITS)
           && k % RateLimit.TWO_32 > RateLimit.MAX_DISTINCT_FILES_PER_SEC)
  {
    hide Run, LimiterEvents, RateLimit.Run, RateLimit.Check, RateLimit.Streak, RateLimit.Holds, RateLimit.Describes, RateLimit.SecondOf;
    LimiterRuns(cfg, n, seeds, es);
    RateLimit.DropLaw(LimiterEvents(cfg, n, seeds, es), pid, ts);
    RateLimit.SlotLaw(LimiterEvents(cfg, n, seeds, es), pid);
  }
}
