// The open-addressing PID table of bpf/process_filter.h as a value: probing,
// insertion, and deletion by clearing a slot and re-inserting the rest of its
// cyclic cluster. The imperative tracker in pid_tracker.dfy refines these
// functions; this file says what they mean.
module PidTable {

  datatype Slot = Slot(pid: int, ppid: int, isTracked: bool, isActive: bool)

  const EMPTY_SLOT := Slot(0, 0, false, false)

  // ---- Cyclic positions ----

  function Home(n: nat, pid: int): (h: nat)
    requires n > 0
    ensures h < n
  {
    pid % n
  }

  // The i-th slot probed from h.
  function Probe(n: nat, h: nat, i: nat): (k: nat)
    requires h < n && i < n
    ensures k < n
  {
    if h + i < n then h + i else h + i - n
  }

  lemma MulMono(n: nat, a: int, b: int)
    requires a <= b
    ensures n * a <= n * b
  {
  }

  // Probe is the source's (hash + i) & MASK.
  lemma ProbeIsModulo(n: nat, h: nat, i: nat)
    requires h < n && i < n
    ensures Probe(n, h, i) == (h + i) % n
  {
    var d := (h + i) / n;
    assert h + i == n * d + (h + i) % n;
    if d >= 2 {
      MulMono(n, 2, d);
    } else if d <= 0 {
      MulMono(n, d, 0);
    }
  }

  // How many steps forward from a to b.
  function Dist(n: nat, a: nat, b: nat): (d: nat)
    requires a < n && b < n
    ensures d < n && Probe(n, a, d) == b
  {
    if a <= b then b - a else b - a + n
  }

  // Slot k is probed before slot q when the probing starts at h.
  predicate Before(n: nat, h: nat, k: nat, q: nat)
    requires h < n && k < n && q < n
  {
    Dist(n, h, k) < Dist(n, h, q)
  }

  // ---- Operations ----

  function FindFrom(s: seq<Slot>, pid: int, i: nat): (r: int)
    requires |s| > 0 && i <= |s|
    ensures -1 <= r < |s|
    ensures r >= 0 ==> s[r].isActive && s[r].pid == pid
    decreases |s| - i
  {
    if i == |s| then -1
    else
      var k := Probe(|s|, Home(|s|, pid), i);
      if !s[k].isActive then -1
      else if s[k].pid == pid then k
      else FindFrom(s, pid, i + 1)
  }

  function FreeFrom(s: seq<Slot>, h: nat, i: nat): (r: int)
    requires h < |s| && i <= |s|
    ensures -1 <= r < |s|
    ensures r >= 0 ==> !s[r].isActive
    decreases |s| - i
  {
    if i == |s| then -1
    else
      var k := Probe(|s|, h, i);
      if !s[k].isActive then k else FreeFrom(s, h, i + 1)
  }

  datatype AddResult = AddResult(slots: seq<Slot>, ok: bool)

  function Add(s: seq<Slot>, pid: int, ppid: int): (r: AddResult)
    requires |s| > 0
    ensures |r.slots| == |s|
  {
    if FindFrom(s, pid, 0) >= 0 then AddResult(s, true)
    else
      var f := FreeFrom(s, Home(|s|, pid), 0);
      if f < 0 then AddResult(s, false)
      else AddResult(s[f := Slot(pid, ppid, true, true)], true)
  }

  function Clear(s: seq<Slot>, k: nat): (r: seq<Slot>)
    requires k < |s|
    ensures |r| == |s|
  {
    s[k := s[k].(isActive := false)]
  }

  // One re-insertion of the cluster walk.
  function Reinsert(s: seq<Slot>, j: nat): (r: seq<Slot>)
    requires j < |s|
    ensures |r| == |s|
  {
    var cleared := Clear(s, j);
    if s[j].isTracked then Add(cleared, s[j].pid, s[j].ppid).slots else cleared
  }

  function Rehash(s: seq<Slot>, idx: nat, n: nat): (r: seq<Slot>)
    requires idx < |s| && n <= |s|
    ensures |r| == |s|
    decreases |s| - n
  {
    if n == |s| then s
    else
      var j := Probe(|s|, idx, n);
      if !s[j].isActive then s else Rehash(Reinsert(s, j), idx, n + 1)
  }

  function Remove(s: seq<Slot>, pid: int): (r: seq<Slot>)
    requires |s| > 0
    ensures |r| == |s|
  {
    var q := FindFrom(s, pid, 0);
    if q < 0 then s else Rehash(Clear(s, q), q, 1)
  }

  predicate IsTracked(s: seq<Slot>, pid: int)
    requires |s| > 0
  {
    var q := FindFrom(s, pid, 0);
    q >= 0 && s[q].isTracked
  }

  // The (pid, ppid) pairs handed to the visitor, in slot order.
  function Visited(s: seq<Slot>): seq<(int, int)>
  {
    if s == [] then []
    else
      var front := Visited(s[..|s| - 1]);
      if s[|s| - 1].isActive then front + [(s[|s| - 1].pid, s[|s| - 1].ppid)] else front
  }

  // ---- Invariant ----

  ghost predicate Distinct(s: seq<Slot>) {
    forall i, j :: 0 <= i < |s| && 0 <= j < |s| && s[i].isActive && s[j].isActive && s[i].pid == s[j].pid ==> i == j
  }

  ghost predicate AllTracked(s: seq<Slot>) {
    forall i :: 0 <= i < |s| && s[i].isActive ==> s[i].isTracked
  }

  ghost predicate OnPath(s: seq<Slot>, k: int, q: int) {
    0 <= k < |s| && 0 <= q < |s| && s[q].isActive && Before(|s|, Home(|s|, s[q].pid), k, q)
  }

  // No probe path has a hole. On a full table this alone is not kept by Remove.
  ghost predicate PathsFilled(s: seq<Slot>) {
    forall k, q :: OnPath(s, k, q) ==> s[k].isActive
  }

  // rank is an insertion order that explains the table: every slot on an
  // entry's probe path is held by an earlier entry.
  ghost predicate Explains(rank: seq<int>, s: seq<Slot>) {
    |rank| == |s| &&
    forall k, q :: OnPath(s, k, q) ==> s[k].isActive && rank[k] < rank[q]
  }

  ghost predicate Inv(s: seq<Slot>) {
    |s| > 0 && Distinct(s) && AllTracked(s) && exists rank :: Explains(rank, s)
  }

  // The abstract value: which PID is tracked with which parent.
  ghost function Contents(s: seq<Slot>): map<int, int>
    requires Distinct(s)
  {
    map i | 0 <= i < |s| && s[i].isActive :: s[i].pid := s[i].ppid
  }

  ghost predicate Holds(s: seq<Slot>, i: int, p: int) {
    0 <= i < |s| && s[i].isActive && s[i].pid == p
  }

  // What it takes for m to be the abstract value of s.
  lemma ContentsIs(s: seq<Slot>, m: map<int, int>)
    requires Distinct(s)
    requires forall i, p :: Holds(s, i, p) ==> p in m && m[p] == s[i].ppid
    requires forall p :: p in m ==> exists i :: Holds(s, i, p)
    ensures Contents(s) == m
  {
    forall p | p in Contents(s) ensures p in m && Contents(s)[p] == m[p] {
      var i :| 0 <= i < |s| && s[i].isActive && s[i].pid == p;
      assert Holds(s, i, p);
    }
    forall p | p in m ensures p in Contents(s) {
      var i :| Holds(s, i, p);
    }
  }

  lemma ContentsAt(s: seq<Slot>)
    requires Distinct(s)
    ensures forall i, p :: Holds(s, i, p) ==> p in Contents(s) && Contents(s)[p] == s[i].ppid
    ensures forall p :: p in Contents(s) ==> exists i :: Holds(s, i, p)
  {
    forall p | p in Contents(s) ensures exists i :: Holds(s, i, p) {
      var i :| 0 <= i < |s| && s[i].isActive && s[i].pid == p;
      assert Holds(s, i, p);
    }
  }

  // ---- Find ----

  lemma {:induction false} FindHits(s: seq<Slot>, pid: int, q: nat, i: nat)
    requires |s| > 0 && q < |s| && s[q].isActive && s[q].pid == pid
    requires Distinct(s) && forall k :: OnPath(s, k, q) ==> s[k].isActive
    requires i <= Dist(|s|, Home(|s|, pid), q)
    ensures FindFrom(s, pid, i) == q
    decreases |s| - i
  {
    var h := Home(|s|, pid);
    var k := Probe(|s|, h, i);
    if i < Dist(|s|, h, q) {
      assert Dist(|s|, h, k) == i;
      assert OnPath(s, k, q);
      FindHits(s, pid, q, i + 1);
    }
  }

  lemma {:induction false} FindMisses(s: seq<Slot>, pid: int, i: nat)
    requires |s| > 0 && i <= |s|
    requires forall q :: 0 <= q < |s| && s[q].isActive ==> s[q].pid != pid
    ensures FindFrom(s, pid, i) == -1
    decreases |s| - i
  {
    if i < |s| && s[Probe(|s|, Home(|s|, pid), i)].isActive {
      FindMisses(s, pid, i + 1);
    }
  }

  // Find answers exactly like the abstract map.
  lemma FindAgrees(s: seq<Slot>, pid: int)
    requires |s| > 0 && Distinct(s) && PathsFilled(s)
    ensures FindFrom(s, pid, 0) >= 0 <==> pid in Contents(s)
    ensures pid in Contents(s) ==> s[FindFrom(s, pid, 0)].ppid == Contents(s)[pid]
  {
    if q :| 0 <= q < |s| && s[q].isActive && s[q].pid == pid {
      FindHits(s, pid, q, 0);
    } else {
      FindMisses(s, pid, 0);
    }
  }

  // ---- Free slots ----

  lemma {:induction false} FreeIs(s: seq<Slot>, h: nat, f: nat, i: nat)
    requires h < |s| && f < |s| && !s[f].isActive && i <= Dist(|s|, h, f)
    requires forall k :: 0 <= k < |s| && Before(|s|, h, k, f) ==> s[k].isActive
    ensures FreeFrom(s, h, i) == f
    decreases |s| - i
  {
    if i < Dist(|s|, h, f) {
      var k := Probe(|s|, h, i);
      assert Dist(|s|, h, k) == i;
      FreeIs(s, h, f, i + 1);
    }
  }

  lemma {:induction false} FreeFirst(s: seq<Slot>, h: nat, i: nat)
    requires h < |s| && i <= |s|
    ensures var f := FreeFrom(s, h, i);
      forall k :: 0 <= k < |s| && i <= Dist(|s|, h, k) && (f < 0 || Before(|s|, h, k, f)) ==> s[k].isActive
    decreases |s| - i
  {
    if i < |s| {
      var p := Probe(|s|, h, i);
      assert Dist(|s|, h, p) == i;
      forall k | 0 <= k < |s| && Dist(|s|, h, k) == i ensures k == p {}
      FreeFirst(s, h, i + 1);
    }
  }

  // ---- Add ----

  function Top(rank: seq<int>): (t: int)
    ensures forall i :: 0 <= i < |rank| ==> rank[i] < t
  {
    if rank == [] then 0
    else
      var t := Top(rank[..|rank| - 1]);
      if rank[|rank| - 1] < t then t else rank[|rank| - 1] + 1
  }

  lemma AddExplained(s: seq<Slot>, rank: seq<int>, f: nat, e: Slot)
    requires Explains(rank, s) && f < |s| && !s[f].isActive && e.isActive
    requires forall k :: 0 <= k < |s| && Before(|s|, Home(|s|, e.pid), k, f) ==> s[k].isActive
    ensures Explains(rank[f := Top(rank)], s[f := e])
  {
    var s', rank' := s[f := e], rank[f := Top(rank)];
    forall k, q | OnPath(s', k, q) ensures s'[k].isActive && rank'[k] < rank'[q] {
      if q != f {
        assert OnPath(s, k, q);
      }
    }
  }

  // Add refuses exactly when the PID is absent and every slot is taken; otherwise
  // it keeps the first ppid of a known PID and records a new one.
  lemma AddAgrees(s: seq<Slot>, pid: int, ppid: int)
    requires Inv(s)
    ensures var r := Add(s, pid, ppid); var m := Contents(s);
      && Inv(r.slots)
      && (r.ok <==> pid in m || exists f :: 0 <= f < |s| && !s[f].isActive)
      && Contents(r.slots) == if pid in m || !r.ok then m else m[pid := ppid]
  {
    FindAgrees(s, pid);
    if FindFrom(s, pid, 0) < 0 {
      var rank :| Explains(rank, s);
      var h := Home(|s|, pid);
      var f := FreeFrom(s, h, 0);
      FreeFirst(s, h, 0);
      if f >= 0 {
        var s' := s[f := Slot(pid, ppid, true, true)];
        AddExplained(s, rank, f, Slot(pid, ppid, true, true));
        AddContents(s, f, pid, ppid);
      }
    }
  }

  // A free home slot, pid modulo the table size, is the one taken.
  lemma AddHome(s: seq<Slot>, pid: int, ppid: int)
    requires |s| > 0 && !s[pid % |s|].isActive
    ensures Add(s, pid, ppid) == AddResult(s[pid % |s| := Slot(pid, ppid, true, true)], true)
  {
  }

  lemma AddContents(s: seq<Slot>, f: nat, pid: int, ppid: int)
    requires Distinct(s) && f < |s| && !s[f].isActive && pid !in Contents(s)
    ensures var s' := s[f := Slot(pid, ppid, true, true)];
      Distinct(s') && Contents(s') == Contents(s)[pid := ppid]
  {
    var s' := s[f := Slot(pid, ppid, true, true)];
    ContentsAt(s);
    assert forall i, p :: Holds(s', i, p) ==> i == f || Holds(s, i, p);
    assert Holds(s', f, pid);
    forall i, j | 0 <= i < |s| && 0 <= j < |s| && s'[i].isActive && s'[j].isActive && s'[i].pid == s'[j].pid ensures i == j {
      assert Holds(s', i, s'[i].pid) && Holds(s', j, s'[j].pid);
    }
    var m := Contents(s)[pid := ppid];
    forall p | p in m ensures exists i :: Holds(s', i, p) {
      if p != pid {
        var i :| Holds(s, i, p);
        assert Holds(s', i, p);
      }
    }
    ContentsIs(s', m);
  }

  // ---- Remove ----

  // A table with a hole needs no remembered order: distance from the hole is one.
  lemma HoleExplains(s: seq<Slot>, hole: nat)
    requires hole < |s| && !s[hole].isActive && PathsFilled(s)
    ensures Explains(seq(|s|, k requires 0 <= k < |s| => Dist(|s|, hole, k)), s)
  {
    var rank := seq(|s|, k requires 0 <= k < |s| => Dist(|s|, hole, k));
    forall k, q | OnPath(s, k, q) ensures s[k].isActive && rank[k] < rank[q] {
      assert !OnPath(s, hole, q);
    }
  }

  // State of the cluster walk that started at idx, after offsets 1..n-1: s0 is the
  // table before the deletion and hole the one slot vacated so far. Entries already
  // walked over probe past no hole; an entry not yet walked over may. If a walked
  // entry's path wraps round to slots still ahead, these are older than the hole.
  ghost predicate Walking(s0: seq<Slot>, rank: seq<int>, s: seq<Slot>, idx: nat, n: nat, hole: nat)
  {
    && |s| == |s0| && idx < |s| && 1 <= n <= |s| && hole < |s|
    && Explains(rank, s0)
    && Dist(|s|, idx, hole) < n && !s[hole].isActive
    && (forall k :: 0 <= k < |s| && n <= Dist(|s|, idx, k) ==> s[k] == s0[k])
    && (forall k, q :: OnPath(s, k, q) ==> s[k].isActive || k == hole)
    && (forall q :: 0 <= q < |s| && Dist(|s|, idx, q) < n ==> !OnPath(s, hole, q))
    && (forall k, q :: OnPath(s, k, q) && Dist(|s|, idx, q) < n <= Dist(|s|, idx, k) ==> rank[k] < rank[hole])
  }

  lemma WalkStarts(s0: seq<Slot>, rank: seq<int>, idx: nat)
    requires Explains(rank, s0) && idx < |s0|
    ensures Walking(s0, rank, Clear(s0, idx), idx, 1, idx)
  {
    var s := Clear(s0, idx);
    forall k, q | OnPath(s, k, q) ensures s[k].isActive || k == idx {
      assert OnPath(s0, k, q);
    }
  }

  // Where Reinsert puts the entry of slot j: into the hole if it probes past it,
  // else back where it was.
  lemma ReinsertMoves(s: seq<Slot>, j: nat, hole: nat)
    requires Distinct(s) && AllTracked(s) && j < |s| && hole < |s| && s[j].isActive && !s[hole].isActive
    requires forall k :: OnPath(s, k, j) ==> s[k].isActive || k == hole
    ensures Reinsert(s, j) == if OnPath(s, hole, j) then Clear(s, j)[hole := s[j]] else s
  {
    var h := Home(|s|, s[j].pid);
    var c := Clear(s, j);
    FindMisses(c, s[j].pid, 0);
    var f := if OnPath(s, hole, j) then hole else j;
    forall k | 0 <= k < |s| && Before(|s|, h, k, f) ensures c[k].isActive {
      assert OnPath(s, k, j);
    }
    FreeIs(c, h, f, 0);
  }

  lemma WalkStays(s0: seq<Slot>, rank: seq<int>, s: seq<Slot>, idx: nat, n: nat, hole: nat)
    requires Walking(s0, rank, s, idx, n, hole) && n < |s|
    requires var j := Probe(|s|, idx, n); s[j].isActive && !OnPath(s, hole, j)
    ensures Walking(s0, rank, s, idx, n + 1, hole)
  {
    var j := Probe(|s|, idx, n);
    assert Dist(|s|, idx, j) == n;
    forall q | 0 <= q < |s| && Dist(|s|, idx, q) < n + 1 ensures !OnPath(s, hole, q) {
      assert Dist(|s|, idx, q) == n ==> q == j;
    }
    forall k, q | OnPath(s, k, q) && Dist(|s|, idx, q) < n + 1 <= Dist(|s|, idx, k) ensures rank[k] < rank[hole] {
      assert Dist(|s|, idx, q) == n ==> q == j;
    }
  }

  // The slot about to be vacated lies on no walked entry's path: it would be older
  // than the hole, yet its own entry probes past the hole.
  lemma WalkedAvoid(s0: seq<Slot>, rank: seq<int>, s: seq<Slot>, idx: nat, n: nat, hole: nat, j: nat)
    requires Walking(s0, rank, s, idx, n, hole) && j < |s| && Dist(|s|, idx, j) == n
    requires OnPath(s, hole, j)
    ensures rank[hole] < rank[j]
    ensures forall q :: 0 <= q < |s| && Dist(|s|, idx, q) < n ==> !OnPath(s, j, q)
  {
    assert OnPath(s0, hole, j);
    forall q | 0 <= q < |s| && Dist(|s|, idx, q) < n ensures !OnPath(s, j, q) {
      if OnPath(s, j, q) { assert false; }
    }
  }

  // What a path of the table after the move meets.
  lemma MovedPath(s0: seq<Slot>, rank: seq<int>, s: seq<Slot>, idx: nat, n: nat, hole: nat, j: nat, k: nat, q: nat)
    requires Walking(s0, rank, s, idx, n, hole) && j < |s| && Dist(|s|, idx, j) == n && OnPath(s, hole, j)
    requires OnPath(Clear(s, j)[hole := s[j]], k, q)
    ensures k == j || Clear(s, j)[hole := s[j]][k].isActive
    ensures Dist(|s|, idx, q) < n + 1 ==> k != j
    ensures Dist(|s|, idx, q) < n + 1 <= Dist(|s|, idx, k) ==> rank[k] < rank[j]
  {
    WalkedAvoid(s0, rank, s, idx, n, hole, j);
    assert Dist(|s|, idx, q) == n ==> q == j;
    if q == hole {
      assert OnPath(s, k, j);
      if n + 1 <= Dist(|s|, idx, k) { assert s[k] == s0[k] && OnPath(s0, k, j); }
    } else {
      assert OnPath(s, k, q);
    }
  }

  lemma RankLength(rank: seq<int>, s: seq<Slot>)
    requires Explains(rank, s)
    ensures |rank| == |s|
  {
  }

  lemma WalkMoves(s0: seq<Slot>, rank: seq<int>, s: seq<Slot>, idx: nat, n: nat, hole: nat)
    requires Walking(s0, rank, s, idx, n, hole) && n < |s|
    requires var j := Probe(|s|, idx, n); OnPath(s, hole, j)
    ensures var j := Probe(|s|, idx, n); Walking(s0, rank, Clear(s, j)[hole := s[j]], idx, n + 1, j)
  {
    hide Explains;
    RankLength(rank, s0);
    var j := Probe(|s|, idx, n);
    assert Dist(|s|, idx, j) == n;
    var s' := Clear(s, j)[hole := s[j]];
    forall k, q | OnPath(s', k, q)
      ensures k == j || s'[k].isActive
      ensures Dist(|s|, idx, q) < n + 1 ==> k != j
      ensures Dist(|s|, idx, q) < n + 1 <= Dist(|s|, idx, k) ==> rank[k] < rank[j]
    {
      MovedPath(s0, rank, s, idx, n, hole, j, k, q);
    }
  }

  lemma WalkEnds(s0: seq<Slot>, rank: seq<int>, s: seq<Slot>, idx: nat, n: nat, hole: nat)
    requires Walking(s0, rank, s, idx, n, hole)
    requires n == |s| || !s[Probe(|s|, idx, n)].isActive
    ensures PathsFilled(s)
  {
    hide Explains;
    RankLength(rank, s0);
    if n < |s| {
      var j := Probe(|s|, idx, n);
      assert Dist(|s|, idx, j) == n;
      assert forall q :: OnPath(s, hole, q) ==> OnPath(s, j, q);
    }
  }

  // Moving an entry changes no contents.
  lemma MoveKeepsContents(s: seq<Slot>, j: nat, hole: nat)
    requires Distinct(s) && AllTracked(s) && j < |s| && hole < |s| && s[j].isActive && !s[hole].isActive
    ensures var s' := Clear(s, j)[hole := s[j]];
      Distinct(s') && AllTracked(s') && Contents(s') == Contents(s)
  {
    var s' := Clear(s, j)[hole := s[j]];
    ContentsAt(s);
    forall i, p | Holds(s', i, p) ensures p in Contents(s) && Contents(s)[p] == s'[i].ppid {
      assert Holds(s, if i == hole then j else i, p);
    }
    forall p | p in Contents(s) ensures exists i :: Holds(s', i, p) {
      var i :| Holds(s, i, p);
      assert Holds(s', if i == j then hole else i, p);
    }
    ContentsIs(s', Contents(s));
  }

  lemma WalkSteps(s0: seq<Slot>, rank: seq<int>, s: seq<Slot>, idx: nat, n: nat, hole: nat) returns (hole': nat)
    requires Walking(s0, rank, s, idx, n, hole) && Distinct(s) && AllTracked(s)
    requires n < |s| && s[Probe(|s|, idx, n)].isActive
    ensures var r := Reinsert(s, Probe(|s|, idx, n));
      && Walking(s0, rank, r, idx, n + 1, hole')
      && Distinct(r) && AllTracked(r) && Contents(r) == Contents(s)
  {
    var j := Probe(|s|, idx, n);
    ReinsertMoves(s, j, hole);
    if OnPath(s, hole, j) {
      WalkMoves(s0, rank, s, idx, n, hole);
      MoveKeepsContents(s, j, hole);
      hole' := j;
    } else {
      WalkStays(s0, rank, s, idx, n, hole);
      hole' := hole;
    }
  }

  lemma WalkRestored(s0: seq<Slot>, rank: seq<int>, s: seq<Slot>, idx: nat, n: nat, hole: nat)
    requires Walking(s0, rank, s, idx, n, hole) && Distinct(s) && AllTracked(s)
    requires n == |s| || !s[Probe(|s|, idx, n)].isActive
    ensures Inv(s)
  {
    WalkEnds(s0, rank, s, idx, n, hole);
    HoleExplains(s, hole);
  }

  lemma {:induction false} RehashRestores(s0: seq<Slot>, rank: seq<int>, s: seq<Slot>, idx: nat, n: nat, hole: nat)
    requires idx < |s| && n <= |s|
    requires Walking(s0, rank, s, idx, n, hole) && Distinct(s) && AllTracked(s)
    ensures var r := Rehash(s, idx, n); Inv(r) && Contents(r) == Contents(s)
    decreases |s| - n
  {
    hide Walking; hide Explains;
    if n == |s| || !s[Probe(|s|, idx, n)].isActive {
      WalkRestored(s0, rank, s, idx, n, hole);
    } else {
      var hole' := WalkSteps(s0, rank, s, idx, n, hole);
      RehashRestores(s0, rank, Reinsert(s, Probe(|s|, idx, n)), idx, n + 1, hole');
    }
  }

  lemma ClearContents(s: seq<Slot>, q: nat)
    requires Distinct(s) && q < |s| && s[q].isActive
    ensures Distinct(Clear(s, q)) && Contents(Clear(s, q)) == Contents(s) - {s[q].pid}
  {
    var s' := Clear(s, q);
    ContentsAt(s);
    forall i, p | Holds(s', i, p) ensures Holds(s, i, p) && i != q {}
    forall p | p in Contents(s) - {s[q].pid} ensures exists i :: Holds(s', i, p) {
      var i :| Holds(s, i, p);
      assert Holds(s', i, p);
    }
    ContentsIs(s', Contents(s) - {s[q].pid});
  }

  // Remove forgets the PID and nothing else, on every table the operations can
  // build, full ones included.
  lemma RemoveAgrees(s: seq<Slot>, pid: int)
    requires Inv(s)
    ensures Inv(Remove(s, pid))
    ensures Contents(Remove(s, pid)) == Contents(s) - {pid}
  {
    FindAgrees(s, pid);
    var q := FindFrom(s, pid, 0);
    if q >= 0 {
      var rank :| Explains(rank, s);
      WalkStarts(s, rank, q);
      ClearContents(s, q);
      RehashRestores(s, rank, Clear(s, q), q, 1, q);
    }
  }

  // ---- Iteration and capacity ----

  lemma ContentsOfLast(s: seq<Slot>)
    requires s != [] && Distinct(s)
    ensures var front, e := s[..|s| - 1], s[|s| - 1];
      && Distinct(front)
      && (e.isActive ==> e.pid !in Contents(front))
      && Contents(s) == if e.isActive then Contents(front)[e.pid := e.ppid] else Contents(front)
  {
    var front, e := s[..|s| - 1], s[|s| - 1];
    ContentsAt(front);
    forall i, p | Holds(s, i, p) ensures i == |s| - 1 || Holds(front, i, p) {}
    forall i, p | Holds(front, i, p) ensures Holds(s, i, p) {}
    assert e.isActive ==> Holds(s, |s| - 1, e.pid);
    assert forall i, p :: Holds(front, i, p) && e.isActive ==> p != e.pid;
    var m := if e.isActive then Contents(front)[e.pid := e.ppid] else Contents(front);
    forall p | p in m ensures exists i :: Holds(s, i, p) {
      if !(e.isActive && p == e.pid) {
        var i :| Holds(front, i, p);
        assert Holds(s, i, p);
      }
    }
    ContentsIs(s, m);
  }

  // v lists every pair of m exactly once.
  ghost predicate Lists(v: seq<(int, int)>, m: map<int, int>) {
    && |v| == |m|
    && (forall i :: 0 <= i < |v| ==> v[i].0 in m && m[v[i].0] == v[i].1)
    && (forall i, j :: 0 <= i < j < |v| ==> v[i].0 != v[j].0)
    && (forall p :: p in m ==> (p, m[p]) in v)
  }

  lemma ListsGrow(v: seq<(int, int)>, m: map<int, int>, p: int, pp: int)
    requires Lists(v, m) && p !in m
    ensures Lists(v + [(p, pp)], m[p := pp])
  {
    var v', m' := v + [(p, pp)], m[p := pp];
    assert m'.Keys == m.Keys + {p};
    forall q | q in m' ensures (q, m'[q]) in v' {
      if q == p {
        assert v'[|v|] == (p, pp);
      }
    }
  }

  // The visitor sees every entry exactly once.
  lemma {:induction false} VisitedAgrees(s: seq<Slot>)
    requires Distinct(s)
    ensures Lists(Visited(s), Contents(s))
  {
    if s == [] {
      assert Contents(s) == map[];
    } else {
      var front, e := s[..|s| - 1], s[|s| - 1];
      ContentsOfLast(s);
      VisitedAgrees(front);
      if e.isActive {
        ListsGrow(Visited(front), Contents(front), e.pid, e.ppid);
      }
    }
  }

  lemma {:induction false} VisitedFull(s: seq<Slot>)
    ensures |Visited(s)| <= |s|
    ensures |Visited(s)| == |s| <==> forall i :: 0 <= i < |s| ==> s[i].isActive
  {
    if s != [] {
      var front := s[..|s| - 1];
      VisitedFull(front);
      assert forall i :: 0 <= i < |front| ==> front[i] == s[i];
      assert forall i :: 0 <= i < |s| ==> i == |s| - 1 || s[i] == front[i];
    }
  }

  lemma Capacity(s: seq<Slot>)
    requires Distinct(s)
    ensures |Contents(s)| <= |s|
    ensures |Contents(s)| < |s| <==> exists i :: 0 <= i < |s| && !s[i].isActive
  {
    VisitedAgrees(s);
    VisitedFull(s);
  }

  lemma AddCapped(s: seq<Slot>, pid: int, ppid: int)
    requires Inv(s)
    ensures var r := Add(s, pid, ppid); var m := Contents(s);
      && Inv(r.slots)
      && (r.ok <==> pid in m || |m| < |s|)
      && Contents(r.slots) == if pid in m || !r.ok then m else m[pid := ppid]
  {
    AddAgrees(s, pid, ppid);
    Capacity(s);
  }

  // ---- Whole runs ----

  datatype Op = InitOp | AddOp(pid: int, ppid: int) | RemoveOp(pid: int)

  function Empty(n: nat): (s: seq<Slot>)
    ensures |s| == n && forall i :: 0 <= i < n ==> s[i] == EMPTY_SLOT
  {
    seq(n, _ => EMPTY_SLOT)
  }

  lemma EmptyAgrees(n: nat)
    requires n > 0
    ensures Inv(Empty(n)) && Contents(Empty(n)) == map[]
  {
    assert Explains(seq(n, _ => 0), Empty(n));
  }

  function RunTable(n: nat, ops: seq<Op>): (s: seq<Slot>)
    requires n > 0
    ensures |s| == n
  {
    if ops == [] then Empty(n)
    else
      var s := RunTable(n, ops[..|ops| - 1]);
      match ops[|ops| - 1]
      case InitOp => Empty(n)
      case AddOp(pid, ppid) => Add(s, pid, ppid).slots
      case RemoveOp(pid) => Remove(s, pid)
  }

  // The reference: a map from PID to parent that holds at most n PIDs.
  function RunMap(n: nat, ops: seq<Op>): map<int, int>
  {
    if ops == [] then map[]
    else
      var m := RunMap(n, ops[..|ops| - 1]);
      match ops[|ops| - 1]
      case InitOp => map[]
      case AddOp(pid, ppid) => if pid in m || |m| >= n then m else m[pid := ppid]
      case RemoveOp(pid) => m - {pid}
  }

  lemma {:induction false} RunKeepsInv(n: nat, ops: seq<Op>)
    requires n > 0
    ensures Inv(RunTable(n, ops))
    ensures Contents(RunTable(n, ops)) == RunMap(n, ops)
  {
    if ops == [] {
      EmptyAgrees(n);
    } else {
      RunKeepsInv(n, ops[..|ops| - 1]);
      var s := RunTable(n, ops[..|ops| - 1]);
      match ops[|ops| - 1]
      case InitOp => EmptyAgrees(n);
      case AddOp(pid, ppid) => AddCapped(s, pid, ppid);
      case RemoveOp(pid) => RemoveAgrees(s, pid);
    }
  }

  // After any run, every operation answers as the capped map would: Add refuses
  // exactly an unknown PID on a full map, the tracked test is membership, and the
  // visitor gets each pair once.
  lemma RunAnswersLikeMap(n: nat, ops: seq<Op>, pid: int, ppid: int)
    requires n > 0
    ensures var s := RunTable(n, ops); var m := RunMap(n, ops);
      && |m| <= n
      && (IsTracked(s, pid) <==> pid in m)
      && (pid in m ==> s[FindFrom(s, pid, 0)].ppid == m[pid])
      && (Add(s, pid, ppid).ok <==> pid in m || |m| < n)
      && Lists(Visited(s), m)
  {
    RunKeepsInv(n, ops);
    var s := RunTable(n, ops);
    AddCapped(s, pid, ppid);
    FindAgrees(s, pid);
    Capacity(s);
    VisitedAgrees(s);
  }

  // A full table with hole-free probe paths: slots 1 and 2 each lie on the probe
  // path of the entry in the other.
  const CROSSED := [Slot(0, 9, true, true), Slot(2, 9, true, true), Slot(1, 9, true, true), Slot(3, 9, true, true)]

  lemma CrossedAfterRemove()
    ensures var s := Remove(CROSSED, 0);
      |s| == 4 && s[0].pid == 2 && s[0].isActive && !s[2].isActive
  {
    var s0 := Clear(CROSSED, 0);
    var s1 := Clear(s0, 1)[0 := s0[1]];
    var s2 := Clear(s1, 2)[1 := s1[2]];
    assert Remove(CROSSED, 0) == Rehash(s0, 0, 1);
    ReinsertMoves(s0, 1, 0);
    ReinsertMoves(s1, 2, 1);
    ReinsertMoves(s2, 3, 2);
    assert Rehash(s2, 0, 3) == s2;
    assert Rehash(s1, 0, 2) == s2;
  }

  // Hole-free probe paths alone are not enough: CROSSED has them, yet removing
  // PID 0 makes PID 2 unfindable. No run of the operations builds it.
  lemma HoleFreePathsAreNotEnough()
    ensures Distinct(CROSSED) && AllTracked(CROSSED) && PathsFilled(CROSSED)
    ensures IsTracked(CROSSED, 2) && !IsTracked(Remove(CROSSED, 0), 2)
    ensures forall ops :: RunTable(4, ops) != CROSSED
  {
    FindHits(CROSSED, 2, 1, 0);
    CrossedAfterRemove();
    forall ops ensures RunTable(4, ops) != CROSSED {
      RunKeepsInv(4, ops);
      assert OnPath(CROSSED, 1, 2) && OnPath(CROSSED, 2, 1);
    }
  }
}
