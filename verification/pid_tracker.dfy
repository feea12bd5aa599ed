// struct pid_tracker of bpf/process_filter.h: the slot array updated in place,
// and the three filter decisions taken on it.
module PidTracker {
  import opened PidTable

  // FILTER_MODE_ALL, FILTER_MODE_PROC, FILTER_MODE_FILTER
  datatype FilterMode = All | Proc | Filter

  datatype Filters = Filters(mode: FilterMode, targetPid: int, commands: seq<string>)

  // Whether an exec of pid is to be tracked, given whether its parent is.
  predicate Wanted(f: Filters, comm: string, pid: int, parentTracked: bool) {
    f.mode.Filter? ==>
      || (f.targetPid > 0 && pid == f.targetPid)
      || parentTracked
      || comm in f.commands
  }

  class Tracker {
    const entries: array<Slot>
    var filters: Filters

    ghost predicate Valid()
      reads this, entries
    {
      Inv(entries[..])
    }

    ghost function Tracked(): map<int, int>
      requires Valid()
      reads this, entries
    {
      Contents(entries[..])
    }

    constructor (size: nat, filters: Filters)
      requires size > 0
      ensures Valid() && Tracked() == map[] && entries[..] == Empty(size) && this.filters == filters
      ensures fresh(entries) && entries.Length == size
    {
      this.filters := filters;
      entries := new Slot[size](_ => EMPTY_SLOT);
      new;
      EmptyAgrees(size);
      assert entries[..] == Empty(size);
    }

    // pid_tracker_init on a tracker already in use.
    method Init(filters: Filters)
      requires entries.Length > 0
      modifies this, entries
      ensures Valid() && Tracked() == map[] && entries[..] == Empty(entries.Length) && this.filters == filters
    {
      for i := 0 to entries.Length
        invariant forall k :: 0 <= k < i ==> entries[k] == EMPTY_SLOT
      {
        entries[i] := EMPTY_SLOT;
      }
      this.filters := filters;
      EmptyAgrees(entries.Length);
      assert entries[..] == Empty(entries.Length);
    }

    // pid_tracker_find: the slot index, or -1 for NULL. It is also called while
    // Remove has the table half rehashed, so it does not ask for Valid().
    method Find(pid: int) returns (r: int)
      requires entries.Length > 0
      ensures r == FindFrom(entries[..], pid, 0)
      ensures Valid() ==> (r >= 0 <==> pid in Tracked()) && (r >= 0 ==> entries[r].ppid == Tracked()[pid])
    {
      var n := entries.Length;
      var hash := Home(n, pid);
      if Inv(entries[..]) { FindAgrees(entries[..], pid); }
      for i := 0 to n
        invariant FindFrom(entries[..], pid, 0) == FindFrom(entries[..], pid, i)
      {
        ProbeIsModulo(n, hash, i);
        var idx := (hash + i) % n;
        if !entries[idx].isActive {
          return -1;
        }
        if entries[idx].pid == pid {
          return idx;
        }
      }
      return -1;
    }

    // pid_tracker_add
    method Add(pid: int, ppid: int) returns (ok: bool)
      requires entries.Length > 0
      modifies entries
      ensures PidTable.Add(old(entries[..]), pid, ppid) == AddResult(entries[..], ok)
      ensures old(Valid()) ==> Valid() && var m := old(Tracked());
        && (ok <==> pid in m || |m| < entries.Length)
        && Tracked() == if pid in m || !ok then m else m[pid := ppid]
    {
      hide Explains, AllTracked, Distinct, Contents;
      ghost var was := entries[..];
      if Inv(was) { AddCapped(was, pid, ppid); }
      var n := entries.Length;
      var hash := Home(n, pid);
      var existing := Find(pid);
      if existing >= 0 {
        return true;
      }
      for i := 0 to n
        invariant entries[..] == was
        invariant FreeFrom(was, hash, 0) == FreeFrom(was, hash, i)
      {
        ProbeIsModulo(n, hash, i);
        var idx := (hash + i) % n;
        if !entries[idx].isActive {
          entries[idx] := Slot(pid, ppid, true, true);
          assert entries[..] == was[idx := Slot(pid, ppid, true, true)];
          return true;
        }
      }
      return false;
    }

    // pid_tracker_remove
    method Remove(pid: int)
      requires entries.Length > 0
      modifies entries
      ensures entries[..] == PidTable.Remove(old(entries[..]), pid)
      ensures old(Valid()) ==> Valid() && Tracked() == old(Tracked()) - {pid}
    {
      hide Explains, AllTracked, Distinct, Contents;
      ghost var was := entries[..];
      if Inv(was) { RemoveAgrees(was, pid); }
      var n := entries.Length;
      var hash := Home(n, pid);
      for i := 0 to n
        invariant entries[..] == was
        invariant FindFrom(was, pid, 0) == FindFrom(was, pid, i)
      {
        ProbeIsModulo(n, hash, i);
        var idx := (hash + i) % n;
        if !entries[idx].isActive {
          return;
        }
        if entries[idx].pid == pid {
          entries[idx] := entries[idx].(isActive := false);
          assert entries[..] == Clear(was, idx);
          RehashCluster(idx);
          return;
        }
      }
    }

    // The inner loop of pid_tracker_remove.
    method RehashCluster(idx: nat)
      requires idx < entries.Length
      modifies entries
      ensures entries[..] == Rehash(old(entries[..]), idx, 1)
    {
      var n := 1;
      ghost var was := entries[..];
      while n < entries.Length
        invariant 1 <= n <= entries.Length
        invariant Rehash(was, idx, 1) == Rehash(entries[..], idx, n)
      {
        ProbeIsModulo(entries.Length, idx, n);
        var j := (idx + n) % entries.Length;
        if !entries[j].isActive {
          break;
        }
        ghost var before := entries[..];
        var moved := entries[j];
        entries[j] := moved.(isActive := false);
        assert entries[..] == Clear(before, j);
        if moved.isTracked {
          var _ := Add(moved.pid, moved.ppid);
        }
        n := n + 1;
      }
    }

    // pid_tracker_is_tracked
    method IsTracked(pid: int) returns (r: bool)
      requires entries.Length > 0
      ensures r <==> PidTable.IsTracked(entries[..], pid)
      ensures Valid() ==> (r <==> pid in Tracked())
    {
      var q := Find(pid);
      r := q >= 0 && entries[q].isTracked;
    }

    // pid_tracker_foreach, with the visits collected in order
    method Foreach() returns (visits: seq<(int, int)>)
      ensures visits == Visited(entries[..])
      ensures Valid() ==> Lists(visits, Tracked())
    {
      visits := [];
      for i := 0 to entries.Length
        invariant visits == Visited(entries[..i])
      {
        assert entries[..i + 1][..i] == entries[..i];
        if entries[i].isActive {
          visits := visits + [(entries[i].pid, entries[i].ppid)];
        }
      }
      assert entries[..entries.Length] == entries[..];
      if Distinct(entries[..]) { VisitedAgrees(entries[..]); }
    }

    // command_matches_any_filter
    method CommandMatches(comm: string) returns (r: bool)
      ensures r <==> comm in filters.commands
    {
      for i := 0 to |filters.commands|
        invariant comm !in filters.commands[..i]
      {
        if comm == filters.commands[i] {
          return true;
        }
      }
      return false;
    }

    // should_track_process
    method ShouldTrack(comm: string, pid: int, ppid: int) returns (r: bool)
      requires Valid()
      ensures r <==>
        || filters.mode == All || filters.mode == Proc
        || (filters.targetPid > 0 && pid == filters.targetPid)
        || ppid in Tracked()
        || comm in filters.commands
    {
      if filters.mode.All? || filters.mode.Proc? {
        return true;
      }
      if filters.targetPid > 0 && pid == filters.targetPid {
        return true;
      }
      var parent := IsTracked(ppid);
      if parent {
        return true;
      }
      r := false;
      if |filters.commands| > 0 {
        r := CommandMatches(comm);
      }
    }

    // should_report_file_ops
    method ShouldReportFileOps(pid: int) returns (r: bool)
      requires Valid()
      ensures r <==> filters.mode.All? || pid in Tracked()
    {
      if filters.mode.All? {
        return true;
      }
      r := IsTracked(pid);
    }

    // should_report_bash_readline
    method ShouldReportBashReadline(pid: int) returns (r: bool)
      requires Valid()
      ensures r <==> filters.mode != Filter || pid in Tracked()
    {
      if filters.mode.Filter? {
        r := IsTracked(pid);
        return;
      }
      return true;
    }
  }
}
