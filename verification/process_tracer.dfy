// The state bpf/process.c keeps while it runs, updated in place by its seeding loop
// and by handle_event. Printed records are returned in order.
module ProcessTracer {
  import opened PidTable
  import opened PidTracker
  import opened TracerModel
  import opened FileHash
  import RateLimit
  import FileDedup

  class Tracing {
    const cfg: Config
    const tracker: Tracker
    const dedup: FileDedup.Dedup
    const limiter: RateLimit.Limiter
    var kernel: set<int>

    ghost predicate Valid()
      reads this, tracker, tracker.entries, dedup, dedup.hashes, limiter, limiter.limits
    {
      tracker.Valid() && tracker.filters == cfg.filters && dedup.Valid() && limiter.Valid()
    }

    ghost function Now(): State
      requires Valid()
      reads this, tracker, tracker.entries, dedup, dedup.hashes, limiter, limiter.limits
    {
      State(tracker.entries[..], kernel, dedup.Live(), limiter.Live())
    }

    constructor (cfg: Config, size: nat)
      requires size > 0
      ensures Valid() && Now() == Seeded(size, []) && this.cfg == cfg
      ensures fresh(tracker) && fresh(tracker.entries) && fresh(dedup) && fresh(dedup.hashes)
      ensures fresh(limiter) && fresh(limiter.limits)
    {
      this.cfg := cfg;
      tracker := new Tracker(size, cfg.filters);
      dedup := new FileDedup.Dedup();
      limiter := new RateLimit.Limiter();
      kernel := {};
    }

    // add_tracked_pid_to_bpf
    method AddToKernel(pid: int)
      modifies this`kernel
      ensures forall p :: p in kernel <==> p in old(kernel) || (p == pid && pid > 0 && |old(kernel)| < tracker.entries.Length)
      ensures |old(kernel)| <= tracker.entries.Length ==> |kernel| <= tracker.entries.Length
    {
      if pid <= 0 {
        return;
      }
      // BPF_ANY updates an existing key; a new key needs a free entry.
      if pid in kernel || |kernel| < tracker.entries.Length {
        kernel := kernel + {pid};
      }
    }

    // remove_tracked_pid_from_bpf
    method RemoveFromKernel(pid: int)
      modifies this`kernel
      ensures forall p :: p in kernel <==> p in old(kernel) && !(p == pid && pid > 0)
    {
      if pid <= 0 {
        return;
      }
      kernel := kernel - {pid};
    }

    // One turn of seed_initial_pids.
    method SeedOne(seed: Seed) returns (newly: bool)
      requires Valid()
      modifies this`kernel, tracker.entries
      ensures Valid() && Now() == SeedStep(old(Now()), seed)
      ensures newly <==> seed.pid !in old(tracker.Tracked()) && seed.pid in tracker.Tracked()
    {
      hide Explains, AllTracked, Distinct, Contents, KernelAdd;
      var already := tracker.IsTracked(seed.pid);
      var ok := tracker.Add(seed.pid, seed.ppid);
      newly := ok && !already;
      if newly {
        AddToKernel(seed.pid);
        KernelAddIs(old(kernel), tracker.entries.Length, seed.pid, kernel);
      }
    }

    // seed_initial_pids: how many PIDs it newly tracked.
    method SeedInitialPids(seeds: seq<Seed>) returns (trackedCount: nat)
      requires Valid() && Now() == Seeded(tracker.entries.Length, [])
      modifies this`kernel, tracker.entries
      ensures Valid() && Now() == Seeded(tracker.entries.Length, seeds)
      ensures trackedCount == |tracker.Tracked()|
    {
      hide Explains, AllTracked, Distinct, Contents;
      var n := tracker.entries.Length;
      trackedCount := 0;
      EmptyAgrees(n);
      for i := 0 to |seeds|
        invariant Valid() && Now() == Seeded(n, seeds[..i])
        invariant trackedCount == |tracker.Tracked()|
      {
        ghost var m := tracker.Tracked();
        AddCapped(tracker.entries[..], seeds[i].pid, seeds[i].ppid);
        assert seeds[..i + 1][..i] == seeds[..i];
        var newly := SeedOne(seeds[i]);
        if newly {
          trackedCount := trackedCount + 1;
          assert m[seeds[i].pid := seeds[i].ppid].Keys == m.Keys + {seeds[i].pid};
        }
      }
      assert seeds[..|seeds|] == seeds;
    }

    // should_track_event_process
    method ShouldTrackEvent(e: Event) returns (r: bool)
      requires Valid() && e.Exec?
      ensures r <==> ShouldTrack(cfg, tracker.entries[..], e)
    {
      TrackedIsMember(tracker.entries[..], e.ppid);
      if cfg.sessionId > 0 && e.sid == cfg.sessionId {
        return true;
      }
      if cfg.sessionId > 0 {
        return false;
      }
      r := tracker.ShouldTrack(e.comm, e.pid, e.ppid);
    }

    method HandleExec(e: Event) returns (out: seq<Out>)
      requires Valid() && e.Exec?
      modifies this`kernel, tracker.entries
      ensures Valid() && (Now(), out) == ExecStep(cfg, old(Now()), e)
    {
      hide Explains, AllTracked, Distinct, Contents, KernelAdd;
      var track := ShouldTrackEvent(e);
      out := [];
      if track {
        var _ := tracker.Add(e.pid, e.ppid);
        AddToKernel(e.pid);
        KernelAddIs(old(kernel), tracker.entries.Length, e.pid, kernel);
        out := [ExecLine(e.pid)];
      } else if !cfg.filters.mode.Filter? {
        if cfg.filters.mode.Proc? {
          var _ := tracker.Add(e.pid, e.ppid);
          AddToKernel(e.pid);
          KernelAddIs(old(kernel), tracker.entries.Length, e.pid, kernel);
        }
        out := [ExecLine(e.pid)];
      }
    }

    method HandleExit(pid: int) returns (out: seq<Out>)
      requires Valid()
      modifies this`kernel, tracker.entries, dedup, dedup.hashes, limiter, limiter.limits
      ensures Valid() && (Now(), out) == ExitStep(cfg, old(Now()), pid)
    {
      hide Explains, AllTracked, Distinct, Contents, KernelRemove;
      var isTracked := tracker.IsTracked(pid);
      tracker.Remove(pid);
      RemoveFromKernel(pid);
      KernelRemoveIs(old(kernel), pid, kernel);
      if !isTracked && cfg.filters.mode.Filter? {
        return [];
      }
      var addWarning := limiter.TakeWarning(pid);
      out := [ExitLine(pid)] + if addWarning then [WarningLine(pid)] else [];
      var lines := dedup.FlushPid(pid);
      out := out + FileOut(lines, false) + [FlushSummaries(pid)];
    }

    // hash_file_open
    method HashFileOpen(f: FileDedup.File) returns (hash: nat)
      ensures hash == HashFile(f)
    {
      hash := HashMix(5381, f.pid);
      var i := 0;
      while i < |f.path|
        invariant 0 <= i <= |f.path|
        invariant HashPath(hash, f.path[i..]) == HashFile(f)
      {
        var byte := f.path[i] as int % 256;
        hash := HashMix(hash, if byte < 128 then byte else byte - 256);
        i := i + 1;
      }
    }

    // The EVENT_TYPE_FILE_OPERATION case, with get_file_open_count.
    method HandleFileOp(e: Event) returns (out: seq<Out>)
      requires Valid() && e.FileOp?
      modifies dedup, dedup.hashes, limiter, limiter.limits
      ensures Valid() && (Now(), out) == FileStep(cfg, old(Now()), e)
    {
      hide Explains, AllTracked, Distinct, Contents, HashFile, FileDedup.OpenStep, RateLimit.Check, FileDedup.TableOk, RateLimit.Unique, FindFrom;
      out := [];
      if !e.isOpen {
        return;
      }
      var report := tracker.ShouldReportFileOps(e.file.pid);
      TrackedIsMember(tracker.entries[..], e.file.pid);
      if !report {
        return;
      }
      var drop, addWarning := limiter.ShouldRateLimit(e.file.pid, e.ts);
      if drop {
        return;
      }
      var hash := HashFileOpen(e.file);
      var count, lines := dedup.OpenCount(hash, e.file, e.ts);
      var all := lines + if count == 1 then [FileDedup.Single(hash, e.file, e.ts)] else [];
      out := FileOut(all, addWarning);
    }

    // handle_event
    method HandleEvent(e: Event) returns (out: seq<Out>)
      requires Valid()
      modifies this`kernel, tracker.entries, dedup, dedup.hashes, limiter, limiter.limits
      ensures Valid() && (Now(), out) == Step(cfg, old(Now()), e)
    {
      hide Explains, AllTracked, Distinct, Contents, ExecStep, ExitStep, FileStep;
      match e
      case Exec(_, _, _, _) =>
        out := HandleExec(e);
      case Exit(pid, _) =>
        out := HandleExit(pid);
      case Readline(pid) =>
        TrackedIsMember(tracker.entries[..], pid);
        var report := tracker.ShouldReportBashReadline(pid);
        out := if report then [ReadlineLine(pid)] else [];
      case FileOp(_, _, _) =>
        out := HandleFileOp(e);
      case Unknown(kind) =>
        out := [UnknownLine(kind)];
    }
  }

  // The program: start, seed, and handle the delivered events in order. TracerModel
  // says what holds of the final state and the output of every such run.
  method Trace(cfg: Config, size: nat, seeds: seq<Seed>, es: seq<Event>) returns (t: Tracing, out: seq<Out>)
    requires size > 0
    ensures t.Valid() && t.Now() == Run(cfg, size, seeds, es) && out == Output(cfg, size, seeds, es)
  {
    t := new Tracing(cfg, size);
    var _ := t.SeedInitialPids(seeds);
    out := [];
    for i := 0 to |es|
      invariant t.Valid() && t.cfg == cfg && fresh(t) && fresh(t.tracker.entries)
      invariant fresh(t.dedup) && fresh(t.dedup.hashes) && fresh(t.limiter) && fresh(t.limiter.limits)
      invariant t.Now() == Run(cfg, size, seeds, es[..i]) && out == Output(cfg, size, seeds, es[..i])
    {
      assert es[..i + 1][..i] == es[..i];
      var more := t.HandleEvent(es[i]);
      out := out + more;
    }
    assert es[..|es|] == es;
  }
}
