// The cache of process-match answers in bpf/browsertrace.c: linear probing without
// deletion; a full table overwrites the home slot.
module PidCache {
  import opened PidTable

  datatype CacheEntry = CacheEntry(pid: int, valid: bool, matched: bool)

  // The occupied slots, seen as a probing table: the same probe order and the same
  // modulus as the PID tracker's.
  function Keys(c: seq<CacheEntry>): (s: seq<Slot>)
    ensures |s| == |c|
  {
    seq(|c|, i requires 0 <= i < |c| => Slot(c[i].pid, 0, true, c[i].valid))
  }

  datatype Answer = Miss | Hit(matched: bool)

  function Lookup(c: seq<CacheEntry>, pid: int): Answer
    requires |c| > 0
  {
    var i := FindFrom(Keys(c), pid, 0);
    if i < 0 then Miss else Hit(c[i].matched)
  }

  // The first slot on the probe path that is free or already the PID's, or -1.
  function RoomFrom(c: seq<CacheEntry>, pid: int, i: nat): (r: int)
    requires |c| > 0 && i <= |c|
    ensures -1 <= r < |c|
    ensures r >= 0 ==> !c[r].valid || c[r].pid == pid
    decreases |c| - i
  {
    if i == |c| then -1
    else
      var k := Probe(|c|, Home(|c|, pid), i);
      if c[k].valid && c[k].pid != pid then RoomFrom(c, pid, i + 1) else k
  }

  function Store(c: seq<CacheEntry>, pid: int, matched: bool): (r: seq<CacheEntry>)
    requires |c| > 0
    ensures |r| == |c|
  {
    var k := RoomFrom(c, pid, 0);
    c[(if k >= 0 then k else Home(|c|, pid)) := CacheEntry(pid, true, matched)]
  }

  ghost predicate CacheOk(c: seq<CacheEntry>) {
    |c| > 0 && Distinct(Keys(c)) && PathsFilled(Keys(c))
  }

  lemma {:induction false} RoomFirst(c: seq<CacheEntry>, pid: int, i: nat)
    requires |c| > 0 && i <= |c|
    ensures var r := RoomFrom(c, pid, i); var h := Home(|c|, pid);
      forall k :: 0 <= k < |c| && i <= Dist(|c|, h, k) && (r < 0 || Before(|c|, h, k, r)) ==> c[k].valid && c[k].pid != pid
    decreases |c| - i
  {
    if i < |c| {
      var h := Home(|c|, pid);
      var p := Probe(|c|, h, i);
      assert Dist(|c|, h, p) == i;
      forall k | 0 <= k < |c| && Dist(|c|, h, k) == i ensures k == p {}
      RoomFirst(c, pid, i + 1);
    }
  }

  // No entry of the PID lies beyond the slot that Store picks.
  lemma StoreWhere(c: seq<CacheEntry>, pid: int)
    requires CacheOk(c)
    ensures var k := RoomFrom(c, pid, 0);
      forall i :: 0 <= i < |c| && c[i].valid && c[i].pid == pid ==> i == k
  {
    var s, h, k := Keys(c), Home(|c|, pid), RoomFrom(c, pid, 0);
    RoomFirst(c, pid, 0);
    forall i | 0 <= i < |c| && c[i].valid && c[i].pid == pid ensures i == k {
      assert k >= 0 && i != k && !Before(|c|, h, i, k) ==> OnPath(s, k, i);
    }
  }

  lemma StoreKeepsPaths(c: seq<CacheEntry>, pid: int, matched: bool)
    requires CacheOk(c)
    ensures PathsFilled(Keys(Store(c, pid, matched)))
  {
    var c' := Store(c, pid, matched);
    var s, s' := Keys(c), Keys(c');
    var h, r := Home(|c|, pid), RoomFrom(c, pid, 0);
    RoomFirst(c, pid, 0);
    var at := if r >= 0 then r else h;
    forall k, q | OnPath(s', k, q) ensures s'[k].isActive {
      if q == at {
        assert c[k].valid || k == at;
      } else {
        assert OnPath(s, k, q);
      }
    }
  }

  function StoreSlot(c: seq<CacheEntry>, pid: int): (k: nat)
    requires |c| > 0
    ensures k < |c|
  {
    var r := RoomFrom(c, pid, 0);
    if r >= 0 then r else Home(|c|, pid)
  }

  lemma StoreDistinct(c: seq<CacheEntry>, pid: int, matched: bool)
    requires CacheOk(c)
    ensures Distinct(Keys(Store(c, pid, matched)))
  {
    hide PathsFilled, Explains;
    var at := StoreSlot(c, pid);
    var s, s' := Keys(c), Keys(Store(c, pid, matched));
    StoreWhere(c, pid);
    forall i, j | 0 <= i < |s'| && 0 <= j < |s'| && s'[i].isActive && s'[j].isActive && s'[i].pid == s'[j].pid
      ensures i == j
    {
      if i != at && j != at {
        assert s'[i] == s[i] && s'[j] == s[j];
      }
    }
  }

  lemma StoreKeeps(c: seq<CacheEntry>, pid: int, matched: bool)
    requires CacheOk(c)
    ensures CacheOk(Store(c, pid, matched))
  {
    StoreDistinct(c, pid, matched);
    StoreKeepsPaths(c, pid, matched);
  }

  lemma LookupHits(c: seq<CacheEntry>, p: int, q: nat)
    requires CacheOk(c) && q < |c| && c[q].valid && c[q].pid == p
    ensures Lookup(c, p) == Hit(c[q].matched)
  {
    FindHits(Keys(c), p, q, 0);
  }

  lemma LookupMisses(c: seq<CacheEntry>, p: int)
    requires CacheOk(c) && forall q :: 0 <= q < |c| && c[q].valid ==> c[q].pid != p
    ensures Lookup(c, p) == Miss
  {
    FindMisses(Keys(c), p, 0);
  }

  // What the store leaves for every PID: the new answer for its own, and the old one for
  // any other, except that a full table forgets the PID in the home slot.
  lemma StoreAgrees(c: seq<CacheEntry>, pid: int, matched: bool, p: int)
    requires |c| > 0 && CacheOk(c)
    ensures var c' := Store(c, pid, matched); var home := c[pid % |c|];
      Lookup(c', p) ==
        if p == pid then Hit(matched)
        else if RoomFrom(c, pid, 0) < 0 && p == home.pid then Miss
        else Lookup(c, p)
  {
    assert Home(|c|, pid) == pid % |c|;
    hide CacheOk, Lookup, Home;
    var c' := Store(c, pid, matched);
    var at := StoreSlot(c, pid);
    StoreKeeps(c, pid, matched);
    DistinctPids(c);
    RoomFirst(c, pid, 0);
    if p == pid {
      LookupHits(c', pid, at);
    } else if q :| 0 <= q < |c| && c[q].valid && c[q].pid == p {
      LookupHits(c, p, q);
      if q == at {
        LookupMisses(c', p);
      } else {
        LookupHits(c', p, q);
      }
    } else {
      LookupMisses(c, p);
      LookupMisses(c', p);
    }
  }

  lemma DistinctPids(c: seq<CacheEntry>)
    requires CacheOk(c)
    ensures forall i, j :: 0 <= i < |c| && 0 <= j < |c| && c[i].valid && c[j].valid && c[i].pid == c[j].pid ==> i == j
  {
    var s := Keys(c);
    forall i, j | 0 <= i < |c| && 0 <= j < |c| && c[i].valid && c[j].valid && c[i].pid == c[j].pid ensures i == j {
      assert s[i].isActive && s[j].isActive && s[i].pid == s[j].pid;
    }
  }

  // The table is full of other PIDs exactly when no room is found.
  lemma RoomIff(c: seq<CacheEntry>, pid: int)
    requires CacheOk(c)
    ensures RoomFrom(c, pid, 0) < 0 <==> forall i :: 0 <= i < |c| ==> c[i].valid && c[i].pid != pid
  {
    RoomFirst(c, pid, 0);
  }

  // ---- Runs ----

  // Each query comes with the answer that reading /proc would give at that moment.
  datatype Query = Query(pid: int, now: bool)

  function Ask(c: seq<CacheEntry>, q: Query): (seq<CacheEntry>, bool)
    requires |c| > 0
  {
    match Lookup(c, q.pid)
    case Hit(matched) => (c, matched)
    case Miss => (Store(c, q.pid, q.now), q.now)
  }

  function Cleared(n: nat): (c: seq<CacheEntry>)
    ensures |c| == n
  {
    seq(n, _ => CacheEntry(0, false, false))
  }

  function Run(n: nat, qs: seq<Query>): (c: seq<CacheEntry>)
    requires n > 0
    ensures |c| == n
  {
    if qs == [] then Cleared(n) else Ask(Run(n, qs[..|qs| - 1]), qs[|qs| - 1]).0
  }

  // matched was the answer to some earlier query about pid.
  ghost predicate Given(qs: seq<Query>, pid: int, matched: bool) {
    exists i :: 0 <= i < |qs| && qs[i] == Query(pid, matched)
  }

  lemma ClearedOk(n: nat)
    requires n > 0
    ensures CacheOk(Cleared(n))
    ensures forall p :: Lookup(Cleared(n), p) == Miss
  {
    forall p ensures Lookup(Cleared(n), p) == Miss {
      FindMisses(Keys(Cleared(n)), p, 0);
    }
  }

  // In every run the cache answers from what was read earlier for the same PID, and
  // what it has just been told it remembers.
  lemma {:induction false} RunRemembers(n: nat, qs: seq<Query>, p: int)
    requires n > 0
    ensures var c := Run(n, qs);
      && CacheOk(c)
      && (Lookup(c, p).Hit? ==> Given(qs, p, Lookup(c, p).matched))
      && (qs != [] ==> Lookup(c, qs[|qs| - 1].pid).Hit?)
  {
    if qs == [] {
      ClearedOk(n);
    } else {
      var front, q := qs[..|qs| - 1], qs[|qs| - 1];
      var c := Run(n, front);
      RunRemembers(n, front, p);
      RunRemembers(n, front, q.pid);
      if Lookup(c, q.pid).Miss? {
        StoreKeeps(c, q.pid, q.now);
        StoreAgrees(c, q.pid, q.now, p);
        StoreAgrees(c, q.pid, q.now, q.pid);
        assert qs[|qs| - 1] == Query(q.pid, q.now);
      }
      if Lookup(c, p).Hit? {
        var i :| 0 <= i < |front| && front[i] == Query(p, Lookup(c, p).matched);
        assert qs[i] == front[i];
      }
    }
  }

  // So if a PID's executable does not change, caching is invisible: every query gets the
  // answer that reading /proc afresh would give.
  lemma CachingIsInvisible(n: nat, qs: seq<Query>, q: Query)
    requires n > 0 && forall i :: 0 <= i < |qs| && qs[i].pid == q.pid ==> qs[i].now == q.now
    ensures Ask(Run(n, qs), q).1 == q.now
  {
    RunRemembers(n, qs, q.pid);
  }

  // ---- The static table ----

  class Cache {
    const entries: array<CacheEntry>

    ghost predicate Valid()
      reads entries
    {
      CacheOk(entries[..])
    }

    // setup_target_process_filter clears the table.
    constructor (size: nat)
      requires size > 0
      ensures Valid() && entries[..] == Cleared(size) && fresh(entries)
    {
      entries := new CacheEntry[size](_ => CacheEntry(0, false, false));
      new;
      ClearedOk(size);
      assert entries[..] == Cleared(size);
    }

    // lookup_target_pid_cache
    method LookupPid(pid: int) returns (found: bool, matched: bool)
      requires Valid()
      ensures Lookup(entries[..], pid) == if found then Hit(matched) else Miss
    {
      var n := entries.Length;
      var start := Home(n, pid);
      ghost var s := Keys(entries[..]);
      for i := 0 to n
        invariant FindFrom(s, pid, 0) == FindFrom(s, pid, i)
      {
        ProbeIsModulo(n, start, i);
        var k := (start + i) % n;
        if !entries[k].valid {
          return false, false;
        }
        if entries[k].pid == pid {
          return true, entries[k].matched;
        }
      }
      return false, false;
    }

    // store_target_pid_cache
    method StorePid(pid: int, matched: bool)
      requires Valid()
      modifies entries
      ensures Valid() && entries[..] == Store(old(entries[..]), pid, matched)
    {
      var n := entries.Length;
      var start := Home(n, pid);
      ghost var was := entries[..];
      StoreKeeps(was, pid, matched);
      for i := 0 to n
        invariant entries[..] == was
        invariant RoomFrom(was, pid, 0) == RoomFrom(was, pid, i)
      {
        ProbeIsModulo(n, start, i);
        var k := (start + i) % n;
        if entries[k].valid && entries[k].pid != pid {
          continue;
        }
        entries[k] := CacheEntry(pid, true, matched);
        assert entries[..] == Store(was, pid, matched);
        return;
      }
      entries[start] := CacheEntry(pid, true, matched);
      assert entries[..] == Store(was, pid, matched);
    }

    // target_process_matches, with a filter set; q.now is what the executable link says.
    method TargetProcessMatches(q: Query) returns (r: bool)
      requires Valid()
      modifies entries
      ensures Valid() && (entries[..], r) == Ask(old(entries[..]), q)
    {
      var found, matched := LookupPid(q.pid);
      if found {
        return matched;
      }
      StorePid(q.pid, q.now);
      return q.now;
    }
  }
}
