// update_agg_map on several CPUs, racing with the flushes. Every update is a lookup
// followed by a write (bpf_common.h). Userspace (map_flush.h) looks up a key, prints it
// and deletes it, at once (flush_agg_map) or after walking the whole map
// (flush_pid_from_agg_map); and it reads the overflow counters and later clears them
// (check_overflow). Any of these steps may interleave.
module AggRace {
  import opened AggMap
  import opened Search

  // An element of the hash map. elem stands for its address: deleting an entry frees
  // it, a later insertion may use it again, and a CPU may still hold a pointer to it.
  datatype Live = Live(key: Key, elem: nat, count: nat)

  // Where a CPU is inside update_agg_map.
  datatype Phase = Idle | Missed(key: Key) | Holding(key: Key, elem: nat)

  // A key that userspace has looked up and not yet deleted, with the count it saw.
  datatype Claim = Claim(key: Key, count: nat, printed: bool)

  // Where userspace is inside check_overflow.
  datatype Report = NoReport | Reading(total: nat)

  // overflow adds up the CPUs' counters; printed, reported and updates are totals so
  // far. lost counts the increments that went to freed memory or were deleted unprinted,
  // cleared those that were cleared unread, recounted what was printed of keys that stay.
  datatype State = State(live: seq<Live>, cpus: seq<Phase>, claims: seq<Claim>, report: Report,
                         printed: nat, overflow: nat, reported: nat, updates: nat,
                         lost: nat, cleared: nat, recounted: nat)

  datatype Step =
    | LookUp(cpu: nat, key: Key)
    | Write(cpu: nat, elem: nat)
    | FlushLookUp(key: Key)
    | FlushPrint(i: nat)
    | FlushDelete(i: nat)
    | PrintSurplus(key: Key)
    | ReadOverflow
    | ClearOverflow

  function KeyAt(s: seq<Live>, key: Key): (r: int)
    ensures -1 <= r < |s|
    ensures r >= 0 ==> s[r].key == key
    ensures r < 0 ==> forall i :: 0 <= i < |s| ==> s[i].key != key
  {
    FirstWhere(s, (l: Live) => l.key == key)
  }

  function ElemAt(s: seq<Live>, elem: nat): (r: int)
    ensures -1 <= r < |s|
    ensures r >= 0 ==> s[r].elem == elem
    ensures r < 0 ==> forall i :: 0 <= i < |s| ==> s[i].elem != elem
  {
    FirstWhere(s, (l: Live) => l.elem == elem)
  }

  function ClaimAt(s: seq<Claim>, key: Key): (r: int)
    ensures -1 <= r < |s|
    ensures r >= 0 ==> s[r].key == key
    ensures r < 0 ==> forall i :: 0 <= i < |s| ==> s[i].key != key
  {
    FirstWhere(s, (c: Claim) => c.key == key)
  }

  function Without<T>(s: seq<T>, i: nat): (r: seq<T>)
    requires i < |s|
    ensures |r| == |s| - 1
  {
    s[..i] + s[i + 1..]
  }

  function Start(cpus: nat): State {
    State([], seq(cpus, _ => Idle), [], NoReport, 0, 0, 0, 0, 0, 0, 0)
  }

  // The second half of update_agg_map. Through a pointer obtained earlier it adds to
  // whatever now lives at that address; after a miss it inserts with BPF_NOEXIST, which
  // fails when another CPU came first or the map is full.
  function WriteStep(cap: nat, s: State, cpu: nat, elem: nat): State
    requires cpu < |s.cpus|
  {
    var s' := s.(cpus := s.cpus[cpu := Idle], updates := s.updates + 1);
    match s.cpus[cpu]
    case Idle => s
    case Holding(_, held) =>
      var i := ElemAt(s.live, held);
      if i >= 0 then s'.(live := Hit(s.live, i))
      else s'.(lost := s.lost + 1)
    case Missed(key) =>
      if KeyAt(s.live, key) >= 0 || |s.live| >= cap then s'.(overflow := s.overflow + 1)
      else if ElemAt(s.live, elem) >= 0 then s
      else s'.(live := s.live + [Live(key, elem, 1)])
  }

  function Hit(live: seq<Live>, i: nat): (r: seq<Live>)
    requires i < |live|
    ensures |r| == |live|
  {
    live[i := live[i].(count := live[i].count + 1)]
  }

  // The lookup of a flush. A PID flush remembers 256 keys to delete; what it meets beyond
  // is printed and stays.
  function ClaimStep(s: State, key: Key): State {
    var i := KeyAt(s.live, key);
    if i >= 0 && ClaimAt(s.claims, key) < 0 && |s.claims| < PID_FLUSH_BATCH then
      s.(claims := s.claims + [Claim(key, s.live[i].count, false)])
    else s
  }

  function DeleteStep(s: State, j: nat): State
    requires j < |s.claims|
  {
    var c := s.claims[j];
    var i := KeyAt(s.live, c.key);
    if c.printed && i >= 0 && s.live[i].count >= c.count then
      s.(live := Without(s.live, i), claims := Without(s.claims, j), lost := s.lost + (s.live[i].count - c.count))
    else s
  }

  // A step that is not enabled changes nothing.
  function Next(cap: nat, s: State, step: Step): State {
    match step
    case LookUp(cpu, key) =>
      if cpu < |s.cpus| && s.cpus[cpu].Idle? then
        var i := KeyAt(s.live, key);
        s.(cpus := s.cpus[cpu := if i >= 0 then Holding(key, s.live[i].elem) else Missed(key)])
      else s
    case Write(cpu, elem) =>
      if cpu < |s.cpus| then WriteStep(cap, s, cpu, elem) else s
    case FlushLookUp(key) => ClaimStep(s, key)
    case FlushPrint(j) =>
      if j < |s.claims| && !s.claims[j].printed then
        s.(claims := s.claims[j := s.claims[j].(printed := true)], printed := s.printed + s.claims[j].count)
      else s
    case FlushDelete(j) =>
      if j < |s.claims| then DeleteStep(s, j) else s
    case PrintSurplus(key) =>
      var i := KeyAt(s.live, key);
      if i >= 0 && |s.claims| == PID_FLUSH_BATCH then
        s.(printed := s.printed + s.live[i].count, recounted := s.recounted + s.live[i].count)
      else s
    case ReadOverflow =>
      if s.report.NoReport? && s.overflow > 0 then
        s.(report := Reading(s.overflow), reported := s.reported + s.overflow)
      else s
    case ClearOverflow =>
      if s.report.Reading? && s.overflow >= s.report.total then
        s.(report := NoReport, overflow := 0, cleared := s.cleared + (s.overflow - s.report.total))
      else s
  }

  function Run(cap: nat, cpus: nat, steps: seq<Step>): State {
    if steps == [] then Start(cpus)
    else Next(cap, Run(cap, cpus, steps[..|steps| - 1]), steps[|steps| - 1])
  }

  // ---- Sums ----

  function Count(s: seq<Live>): nat {
    if s == [] then 0 else Count(s[..|s| - 1]) + s[|s| - 1].count
  }

  // Between its print and its delete, a key's count is in both places.
  function Pending(claims: seq<Claim>): nat {
    if claims == [] then 0
    else
      var c := claims[|claims| - 1];
      Pending(claims[..|claims| - 1]) + if c.printed then c.count else 0
  }

  // Between the report of the overflow and its clearing, so is the overflow.
  function PendingReport(r: Report): nat {
    if r.Reading? then r.total else 0
  }

  function CountOf(live: seq<Live>, key: Key): nat {
    var i := KeyAt(live, key);
    if i >= 0 then live[i].count else 0
  }

  // What claimed keys have gained since they were looked up: their deletes will take it
  // away unprinted.
  function Doomed(live: seq<Live>, claims: seq<Claim>): int {
    if claims == [] then 0
    else
      var c := claims[|claims| - 1];
      Doomed(live, claims[..|claims| - 1]) + CountOf(live, c.key) - c.count
  }

  // What the overflow counters have gained since they were read.
  function Unread(s: State): int {
    if s.report.Reading? then s.overflow - s.report.total else 0
  }

  lemma {:induction false} CountHit(s: seq<Live>, i: nat)
    requires i < |s|
    ensures Count(Hit(s, i)) == Count(s) + 1
  {
    var s' := Hit(s, i);
    if i < |s| - 1 {
      CountHit(s[..|s| - 1], i);
      assert s'[..|s| - 1] == Hit(s[..|s| - 1], i);
    } else {
      assert s'[..|s| - 1] == s[..|s| - 1];
    }
  }

  lemma WithoutLast<T>(s: seq<T>, i: nat)
    requires i < |s|
    ensures i == |s| - 1 ==> Without(s, i) == s[..|s| - 1]
    ensures i < |s| - 1 ==> Without(s, i) == Without(s[..|s| - 1], i) + [s[|s| - 1]]
  {
  }

  lemma CountAppend(s: seq<Live>, x: Live)
    ensures Count(s + [x]) == Count(s) + x.count
  {
    assert (s + [x])[..|s|] == s;
  }

  lemma {:induction false} CountWithout(s: seq<Live>, i: nat)
    requires i < |s|
    ensures Count(Without(s, i)) == Count(s) - s[i].count
  {
    WithoutLast(s, i);
    if i < |s| - 1 {
      CountWithout(s[..|s| - 1], i);
      CountAppend(Without(s[..|s| - 1], i), s[|s| - 1]);
    }
  }

  lemma PendingAppend(claims: seq<Claim>, c: Claim)
    ensures Pending(claims + [c]) == Pending(claims) + if c.printed then c.count else 0
  {
    assert (claims + [c])[..|claims|] == claims;
  }

  lemma {:induction false} PendingWithout(claims: seq<Claim>, j: nat)
    requires j < |claims|
    ensures Pending(Without(claims, j)) == Pending(claims) - if claims[j].printed then claims[j].count else 0
  {
    WithoutLast(claims, j);
    if j < |claims| - 1 {
      PendingWithout(claims[..|claims| - 1], j);
      PendingAppend(Without(claims[..|claims| - 1], j), claims[|claims| - 1]);
    }
  }

  lemma {:induction false} PendingPrint(claims: seq<Claim>, j: nat)
    requires j < |claims| && !claims[j].printed
    ensures Pending(claims[j := claims[j].(printed := true)]) == Pending(claims) + claims[j].count
  {
    var claims' := claims[j := claims[j].(printed := true)];
    if j < |claims| - 1 {
      PendingPrint(claims[..|claims| - 1], j);
      assert claims'[..|claims| - 1] == claims[..|claims| - 1][j := claims[j].(printed := true)];
    } else {
      assert claims'[..|claims| - 1] == claims[..|claims| - 1];
    }
  }

  lemma DoomedAppend(live: seq<Live>, claims: seq<Claim>, c: Claim)
    ensures Doomed(live, claims + [c]) == Doomed(live, claims) + CountOf(live, c.key) - c.count
  {
    assert (claims + [c])[..|claims|] == claims;
  }

  lemma {:induction false} DoomedWithout(live: seq<Live>, claims: seq<Claim>, j: nat)
    requires j < |claims|
    ensures Doomed(live, Without(claims, j)) == Doomed(live, claims) - (CountOf(live, claims[j].key) - claims[j].count)
  {
    hide CountOf;
    WithoutLast(claims, j);
    if j < |claims| - 1 {
      DoomedWithout(live, claims[..|claims| - 1], j);
      DoomedAppend(live, Without(claims[..|claims| - 1], j), claims[|claims| - 1]);
    }
  }

  lemma {:induction false} DoomedPrint(live: seq<Live>, claims: seq<Claim>, j: nat)
    requires j < |claims|
    ensures Doomed(live, claims[j := claims[j].(printed := true)]) == Doomed(live, claims)
  {
    hide CountOf;
    var claims' := claims[j := claims[j].(printed := true)];
    if j < |claims| - 1 {
      DoomedPrint(live, claims[..|claims| - 1], j);
      assert claims'[..|claims| - 1] == claims[..|claims| - 1][j := claims[j].(printed := true)];
    } else {
      assert claims'[..|claims| - 1] == claims[..|claims| - 1];
    }
  }

  // Only the counts of claimed keys matter.
  lemma {:induction false} DoomedSame(live: seq<Live>, live': seq<Live>, claims: seq<Claim>)
    requires forall j :: 0 <= j < |claims| ==> CountOf(live, claims[j].key) == CountOf(live', claims[j].key)
    ensures Doomed(live, claims) == Doomed(live', claims)
  {
    hide CountOf;
    if claims != [] { DoomedSame(live, live', claims[..|claims| - 1]); }
  }

  ghost predicate DistinctClaims(claims: seq<Claim>) {
    forall i, j :: 0 <= i < j < |claims| ==> claims[i].key != claims[j].key
  }

  // One more hit of a key dooms one more increment, if the key is claimed.
  lemma {:induction false} DoomedHit(live: seq<Live>, live': seq<Live>, claims: seq<Claim>, key: Key)
    requires DistinctClaims(claims)
    requires forall k :: CountOf(live', k) == CountOf(live, k) + if k == key then 1 else 0
    ensures Doomed(live', claims) == Doomed(live, claims) + if ClaimAt(claims, key) >= 0 then 1 else 0
  {
    hide CountOf, ClaimAt;
    if claims != [] {
      var front, c := claims[..|claims| - 1], claims[|claims| - 1];
      DoomedHit(live, live', front, key);
      ClaimAtLast(claims, key);
    } else {
      NoClaims(key);
    }
  }

  lemma NoClaims(key: Key)
    ensures ClaimAt([], key) < 0
  {
  }

  lemma ClaimAtLast(claims: seq<Claim>, key: Key)
    requires claims != [] && DistinctClaims(claims)
    ensures var front, c := claims[..|claims| - 1], claims[|claims| - 1];
      && (ClaimAt(claims, key) >= 0 <==> ClaimAt(front, key) >= 0 || c.key == key)
      && (c.key == key ==> ClaimAt(front, key) < 0)
  {
    var front := claims[..|claims| - 1];
    if ClaimAt(front, key) >= 0 { assert claims[ClaimAt(front, key)].key == key; }
    if ClaimAt(claims, key) >= 0 && ClaimAt(claims, key) < |front| {
      assert front[ClaimAt(claims, key)].key == key;
    }
  }

  // ---- The map by key ----

  ghost predicate DistinctLive(live: seq<Live>) {
    forall i, j :: 0 <= i < j < |live| ==> live[i].key != live[j].key && live[i].elem != live[j].elem
  }

  // The entry of a key, if any.
  function Cell(live: seq<Live>, key: Key): (r: seq<Live>)
    ensures |r| <= 1 && (r != [] ==> r[0].key == key)
  {
    var i := KeyAt(live, key);
    if i >= 0 then [live[i]] else []
  }

  lemma CellIs(live: seq<Live>, i: nat)
    requires DistinctLive(live) && i < |live|
    ensures KeyAt(live, live[i].key) == i && ElemAt(live, live[i].elem) == i && Cell(live, live[i].key) == [live[i]]
  {
  }

  lemma CountIs(live: seq<Live>, key: Key)
    ensures CountOf(live, key) == if Cell(live, key) == [] then 0 else Cell(live, key)[0].count
    ensures Cell(live, key) == [] <==> KeyAt(live, key) < 0
    ensures KeyAt(live, key) >= 0 ==> Cell(live, key) == [live[KeyAt(live, key)]]
  {
  }

  lemma CellHit(live: seq<Live>, i: nat, key: Key)
    requires DistinctLive(live) && i < |live|
    ensures DistinctLive(Hit(live, i))
    ensures Cell(Hit(live, i), key) == if key == live[i].key then [live[i].(count := live[i].count + 1)] else Cell(live, key)
  {
    hide KeyAt, ElemAt;
    var live' := Hit(live, i);
    CellIs(live', i);
    var k := KeyAt(live, key);
    if k >= 0 {
      CellIs(live, k);
      CellIs(live', k);
    }
  }

  lemma CellAppend(live: seq<Live>, x: Live, key: Key)
    requires DistinctLive(live) && KeyAt(live, x.key) < 0 && ElemAt(live, x.elem) < 0
    ensures DistinctLive(live + [x])
    ensures Cell(live + [x], key) == if key == x.key then [x] else Cell(live, key)
  {
    hide KeyAt, ElemAt;
    var live' := live + [x];
    CellIs(live', |live|);
    var k, k' := KeyAt(live, key), KeyAt(live', key);
    if k >= 0 {
      assert live'[k] == live[k];
      CellIs(live', k);
    }
  }

  lemma CellWithout(live: seq<Live>, i: nat, key: Key)
    requires DistinctLive(live) && i < |live|
    ensures DistinctLive(Without(live, i))
    ensures Cell(Without(live, i), key) == if key == live[i].key then [] else Cell(live, key)
  {
    hide KeyAt, ElemAt;
    var r := Without(live, i);
    forall a, b | 0 <= a < b < |r| ensures r[a].key != r[b].key && r[a].elem != r[b].elem {
      assert r[a] == live[if a < i then a else a + 1];
      assert r[b] == live[if b < i then b else b + 1];
    }
    var k, k' := KeyAt(live, key), KeyAt(r, key);
    assert k >= 0 && k != i ==> r[if k < i then k else k - 1] == live[k];
    if k' >= 0 {
      var was := if k' < i then k' else k' + 1;
      assert r[k'] == live[was];
      CellIs(live, was);
    }
  }

  // ---- What the two halves of an update do ----

  // The lookup finds the element of the key, if there is one.
  lemma LookUpFinds(cap: nat, s: State, cpu: nat, key: Key)
    requires cpu < |s.cpus| && s.cpus[cpu] == Idle
    ensures var s' := Next(cap, s, LookUp(cpu, key)); var phase := s'.cpus[cpu];
      && s' == s.(cpus := s.cpus[cpu := phase])
      && (phase == Missed(key) || (phase.Holding? && phase.key == key))
      && (phase.Holding? ==> exists l :: l in s.live && l.key == key && l.elem == phase.elem)
      && (phase.Missed? <==> forall l :: l in s.live ==> l.key != key)
  {
    var i := KeyAt(s.live, key);
    if i >= 0 { assert s.live[i] in s.live; }
  }

  // After a miss the write inserts the key with count one; it counts as an overflow exactly
  // when another CPU came first or the map is full.
  lemma MissedWrites(cap: nat, s: State, cpu: nat, elem: nat)
    requires cpu < |s.cpus| && s.cpus[cpu].Missed? && forall l :: l in s.live ==> l.elem != elem
    ensures var s' := Next(cap, s, Write(cpu, elem)); var key := s.cpus[cpu].key;
      var overflows := |s.live| >= cap || exists l :: l in s.live && l.key == key;
      s' == s.(cpus := s.cpus[cpu := Idle], updates := s.updates + 1,
               overflow := s.overflow + if overflows then 1 else 0,
               live := if overflows then s.live else s.live + [Live(key, elem, 1)])
  {
    var i := KeyAt(s.live, s.cpus[cpu].key);
    if i >= 0 { assert s.live[i] in s.live; }
  }

  // Through a held pointer the write adds one to whatever lives there now, and is lost when
  // nothing does.
  lemma HeldWrites(cap: nat, s: State, cpu: nat, elem: nat)
    requires DistinctLive(s.live) && cpu < |s.cpus| && s.cpus[cpu].Holding?
    ensures var s' := Next(cap, s, Write(cpu, elem)); var held := s.cpus[cpu].elem;
      && s' == s.(cpus := s.cpus[cpu := Idle], updates := s.updates + 1, lost := s'.lost, live := s'.live)
      && |s'.live| == |s.live|
      && (s'.lost == s.lost + if exists l :: l in s.live && l.elem == held then 0 else 1)
      && (forall i :: 0 <= i < |s.live| ==>
            s'.live[i] == if s.live[i].elem == held then s.live[i].(count := s.live[i].count + 1) else s.live[i])
  {
    var i := ElemAt(s.live, s.cpus[cpu].elem);
    if i >= 0 { assert s.live[i] in s.live; }
  }

  // The map never holds more keys than it has room for.
  lemma {:induction false} RunWithinCap(cap: nat, cpus: nat, steps: seq<Step>)
    ensures |Run(cap, cpus, steps).live| <= cap
  {
    if steps != [] {
      hide KeyAt, ElemAt, ClaimAt, Hit;
      RunWithinCap(cap, cpus, steps[..|steps| - 1]);
    }
  }

  // ---- What every interleaving keeps ----

  // A claimed key is live, with no fewer hits than were seen.
  ghost predicate Backed(live: seq<Live>, c: Claim) {
    Cell(live, c.key) != [] && Cell(live, c.key)[0].count >= c.count
  }

  ghost predicate Shape(s: State) {
    && DistinctLive(s.live) && DistinctClaims(s.claims) && |s.claims| <= PID_FLUSH_BATCH
    && (forall j :: 0 <= j < |s.claims| ==> Backed(s.live, s.claims[j]))
    && (s.report.Reading? ==> s.overflow >= s.report.total)
  }

  // Every update made is printed, live, in the overflow counters, reported, lost or cleared.
  ghost predicate Balanced(s: State) {
    s.printed + Count(s.live) + s.overflow + s.reported + s.lost + s.cleared
    == s.updates + Pending(s.claims) + PendingReport(s.report) + s.recounted
  }

  lemma WriteShape(cap: nat, s: State, cpu: nat, elem: nat)
    requires Shape(s) && cpu < |s.cpus|
    ensures Shape(WriteStep(cap, s, cpu, elem))
  {
    hide KeyAt, ElemAt, Cell, DistinctLive, DistinctClaims;
    var s' := WriteStep(cap, s, cpu, elem);
    match s.cpus[cpu]
    case Idle =>
    case Holding(_, held) =>
      var i := ElemAt(s.live, held);
      if i >= 0 {
        CellIs(s.live, i);
        forall key { CellHit(s.live, i, key); }
      }
    case Missed(key) =>
      if s'.live != s.live {
        var x := Live(key, elem, 1);
        CountIs(s.live, key);
        forall k { CellAppend(s.live, x, k); }
      }
  }

  lemma ClaimShape(s: State, key: Key)
    requires Shape(s)
    ensures Shape(ClaimStep(s, key))
  {
    hide KeyAt, Cell, DistinctLive;
    CountIs(s.live, key);
  }

  lemma DeleteShape(s: State, j: nat)
    requires Shape(s) && j < |s.claims|
    ensures Shape(DeleteStep(s, j))
  {
    hide KeyAt, Cell, DistinctLive;
    var s' := DeleteStep(s, j);
    var i := KeyAt(s.live, s.claims[j].key);
    if s' != s {
      forall key { CellWithout(s.live, i, key); }
      forall k | 0 <= k < |s'.claims| ensures s'.claims[k] == s.claims[if k < j then k else k + 1] {}
    }
  }

  lemma NextShape(cap: nat, s: State, step: Step)
    requires Shape(s)
    ensures Shape(Next(cap, s, step))
  {
    hide KeyAt, ElemAt, WriteStep, ClaimStep, DeleteStep, Cell, DistinctLive;
    match step
    case LookUp(_, _) =>
    case Write(cpu, elem) => if cpu < |s.cpus| { WriteShape(cap, s, cpu, elem); }
    case FlushLookUp(key) => ClaimShape(s, key);
    case FlushPrint(_) =>
    case FlushDelete(j) => if j < |s.claims| { DeleteShape(s, j); }
    case PrintSurplus(_) =>
    case ReadOverflow =>
    case ClearOverflow =>
  }

  lemma WriteBalanced(cap: nat, s: State, cpu: nat, elem: nat)
    requires Balanced(s) && cpu < |s.cpus|
    ensures Balanced(WriteStep(cap, s, cpu, elem))
  {
    hide KeyAt, ElemAt, Count, Hit, Pending;
    match s.cpus[cpu]
    case Idle =>
    case Holding(_, held) =>
      var i := ElemAt(s.live, held);
      if i >= 0 { CountHit(s.live, i); }
    case Missed(key) => CountAppend(s.live, Live(key, elem, 1));
  }

  lemma DeleteBalanced(s: State, j: nat)
    requires Balanced(s) && j < |s.claims|
    ensures Balanced(DeleteStep(s, j))
  {
    hide KeyAt, Count, Without, Pending;
    PendingWithout(s.claims, j);
    var i := KeyAt(s.live, s.claims[j].key);
    if i >= 0 { CountWithout(s.live, i); }
  }

  lemma NextBalanced(cap: nat, s: State, step: Step)
    requires Balanced(s)
    ensures Balanced(Next(cap, s, step))
  {
    hide KeyAt, ElemAt, ClaimAt, WriteStep, DeleteStep, Count, Pending;
    match step
    case LookUp(_, _) =>
    case Write(cpu, elem) => if cpu < |s.cpus| { WriteBalanced(cap, s, cpu, elem); }
    case FlushLookUp(key) => PendingAppend(s.claims, Claim(key, CountOf(s.live, key), false));
    case FlushPrint(j) => if j < |s.claims| && !s.claims[j].printed { PendingPrint(s.claims, j); }
    case FlushDelete(j) => if j < |s.claims| { DeleteBalanced(s, j); }
    case PrintSurplus(_) =>
    case ReadOverflow =>
    case ClearOverflow =>
  }

  lemma {:induction false} RunBalanced(cap: nat, cpus: nat, steps: seq<Step>)
    ensures var s := Run(cap, cpus, steps); Shape(s) && Balanced(s)
  {
    hide Next;
    if steps != [] {
      var front := steps[..|steps| - 1];
      RunBalanced(cap, cpus, front);
      NextShape(cap, Run(cap, cpus, front), steps[|steps| - 1]);
      NextBalanced(cap, Run(cap, cpus, front), steps[|steps| - 1]);
    }
  }

  // Whatever interleaves, nothing is counted twice other than what is printed of keys
  // that stay: what is printed, live, in the overflow counters or reported never exceeds
  // the updates made (a key printed but not yet deleted counting once, as does an overflow
  // reported but not yet cleared).
  lemma NeverOvercounts(cap: nat, cpus: nat, steps: seq<Step>)
    ensures var s := Run(cap, cpus, steps);
      s.printed + Count(s.live) + s.overflow + s.reported
      <= s.updates + Pending(s.claims) + PendingReport(s.report) + s.recounted
  {
    RunBalanced(cap, cpus, steps);
  }

  // ---- The exact law ----

  // The write of an update is stale when its element has been freed, or is one that a
  // flush has looked up and not yet deleted.
  predicate Stale(s: State, step: Step) {
    step.Write? && step.cpu < |s.cpus| && s.cpus[step.cpu].Holding? &&
    var i := ElemAt(s.live, s.cpus[step.cpu].elem);
    i < 0 || ClaimAt(s.claims, s.live[i].key) >= 0
  }

  // It is late when it overflows between the report of the overflow and its clearing.
  predicate Late(cap: nat, s: State, step: Step) {
    s.report.Reading? && step.Write? && Next(cap, s, step).overflow > s.overflow
  }

  function StaleWrites(cap: nat, cpus: nat, steps: seq<Step>): nat {
    if steps == [] then 0
    else
      var front, step := steps[..|steps| - 1], steps[|steps| - 1];
      StaleWrites(cap, cpus, front) + if Stale(Run(cap, cpus, front), step) then 1 else 0
  }

  function LateWrites(cap: nat, cpus: nat, steps: seq<Step>): nat {
    if steps == [] then 0
    else
      var front, step := steps[..|steps| - 1], steps[|steps| - 1];
      LateWrites(cap, cpus, front) + if Late(cap, Run(cap, cpus, front), step) then 1 else 0
  }

  lemma CountsAfterHit(live: seq<Live>, i: nat, key: Key)
    requires DistinctLive(live) && i < |live|
    ensures CountOf(Hit(live, i), key) == CountOf(live, key) + if key == live[i].key then 1 else 0
  {
    hide KeyAt, DistinctLive, CountOf;
    CellIs(live, i);
    CellHit(live, i, key);
    CountIs(live, key);
    CountIs(Hit(live, i), key);
  }

  lemma CountsAfterAppend(live: seq<Live>, x: Live, key: Key)
    requires DistinctLive(live) && KeyAt(live, x.key) < 0 && ElemAt(live, x.elem) < 0
    ensures key != x.key ==> CountOf(live + [x], key) == CountOf(live, key)
  {
    hide KeyAt, ElemAt, DistinctLive, CountOf;
    CellAppend(live, x, key);
    CountIs(live, key);
    CountIs(live + [x], key);
  }

  lemma CountsAfterWithout(live: seq<Live>, i: nat, key: Key)
    requires DistinctLive(live) && i < |live|
    ensures key != live[i].key ==> CountOf(Without(live, i), key) == CountOf(live, key)
  {
    hide KeyAt, DistinctLive, CountOf;
    CellWithout(live, i, key);
    CountIs(live, key);
    CountIs(Without(live, i), key);
  }

  lemma BackedIsLive(s: State, j: nat)
    requires Shape(s) && j < |s.claims|
    ensures KeyAt(s.live, s.claims[j].key) >= 0
  {
    assert Backed(s.live, s.claims[j]);
    CountIs(s.live, s.claims[j].key);
  }

  lemma WriteStales(cap: nat, s: State, cpu: nat, elem: nat)
    requires Shape(s) && cpu < |s.cpus|
    ensures var s' := WriteStep(cap, s, cpu, elem);
      s'.lost + Doomed(s'.live, s'.claims) == s.lost + Doomed(s.live, s.claims) + if Stale(s, Write(cpu, elem)) then 1 else 0
  {
    hide KeyAt, ElemAt, ClaimAt, CountOf, Doomed, Hit;
    match s.cpus[cpu]
    case Idle =>
    case Holding(_, held) =>
      var i := ElemAt(s.live, held);
      if i >= 0 {
        forall key { CountsAfterHit(s.live, i, key); }
        DoomedHit(s.live, Hit(s.live, i), s.claims, s.live[i].key);
      }
    case Missed(key) =>
      if KeyAt(s.live, key) < 0 && ElemAt(s.live, elem) < 0 {
        var x := Live(key, elem, 1);
        forall j | 0 <= j < |s.claims| ensures CountOf(s.live, s.claims[j].key) == CountOf(s.live + [x], s.claims[j].key) {
          BackedIsLive(s, j);
          CountsAfterAppend(s.live, x, s.claims[j].key);
        }
        DoomedSame(s.live, s.live + [x], s.claims);
      }
  }

  lemma DeleteStales(s: State, j: nat)
    requires Shape(s) && j < |s.claims|
    ensures var s' := DeleteStep(s, j); s'.lost + Doomed(s'.live, s'.claims) == s.lost + Doomed(s.live, s.claims)
  {
    hide KeyAt, Doomed, DistinctLive;
    var i := KeyAt(s.live, s.claims[j].key);
    if i >= 0 {
      var rest := Without(s.claims, j);
      DoomedWithout(s.live, s.claims, j);
      forall k | 0 <= k < |rest| ensures CountOf(s.live, rest[k].key) == CountOf(Without(s.live, i), rest[k].key) {
        assert rest[k] == s.claims[if k < j then k else k + 1];
        CountsAfterWithout(s.live, i, rest[k].key);
      }
      DoomedSame(s.live, Without(s.live, i), rest);
    }
  }

  lemma ClaimStales(s: State, key: Key)
    ensures var s' := ClaimStep(s, key); s'.lost == s.lost && Doomed(s'.live, s'.claims) == Doomed(s.live, s.claims)
  {
    hide KeyAt, Doomed, ClaimAt;
    DoomedAppend(s.live, s.claims, Claim(key, CountOf(s.live, key), false));
  }

  lemma OnlyWritesAreStale(s: State, step: Step)
    requires !step.Write? || step.cpu >= |s.cpus|
    ensures !Stale(s, step)
  {
  }

  lemma NextStales(cap: nat, s: State, step: Step)
    requires Shape(s)
    ensures var s' := Next(cap, s, step);
      s'.lost + Doomed(s'.live, s'.claims) == s.lost + Doomed(s.live, s.claims) + if Stale(s, step) then 1 else 0
  {
    hide KeyAt, ElemAt, WriteStep, ClaimStep, DeleteStep, Stale, Doomed, Shape;
    if step.Write? && step.cpu < |s.cpus| {
      WriteStales(cap, s, step.cpu, step.elem);
    } else {
      OnlyWritesAreStale(s, step);
      match step
      case FlushLookUp(key) => ClaimStales(s, key);
      case FlushPrint(j) => if j < |s.claims| { DoomedPrint(s.live, s.claims, j); }
      case FlushDelete(j) => if j < |s.claims| { DeleteStales(s, j); }
      case _ =>
    }
  }

  // In every run, what is lost, or will be when the flush deletes its keys, is exactly
  // the stale writes.
  lemma {:induction false} StaleWritesAreLost(cap: nat, cpus: nat, steps: seq<Step>)
    ensures var s := Run(cap, cpus, steps); s.lost + Doomed(s.live, s.claims) == StaleWrites(cap, cpus, steps)
  {
    if steps != [] {
      hide Next, Stale;
      var front := steps[..|steps| - 1];
      StaleWritesAreLost(cap, cpus, front);
      RunBalanced(cap, cpus, front);
      NextStales(cap, Run(cap, cpus, front), steps[|steps| - 1]);
    }
  }

  lemma NextLate(cap: nat, s: State, step: Step)
    requires Shape(s)
    ensures var s' := Next(cap, s, step);
      s'.cleared + Unread(s') == s.cleared + Unread(s) + if Late(cap, s, step) then 1 else 0
  {
    hide KeyAt, ElemAt, ClaimAt, Shape, Hit, Without;
    ShapeReport(s);
  }

  lemma ShapeReport(s: State)
    requires Shape(s)
    ensures s.report.Reading? ==> s.overflow >= s.report.total
  {
  }

  // And what is cleared unread, or will be, is exactly the late writes.
  lemma {:induction false} LateWritesAreCleared(cap: nat, cpus: nat, steps: seq<Step>)
    ensures var s := Run(cap, cpus, steps); s.cleared + Unread(s) == LateWrites(cap, cpus, steps)
  {
    if steps != [] {
      hide Next, Late;
      var front := steps[..|steps| - 1];
      LateWritesAreCleared(cap, cpus, front);
      RunBalanced(cap, cpus, front);
      NextLate(cap, Run(cap, cpus, front), steps[|steps| - 1]);
    }
  }

  // Userspace is in no flush and no overflow report.
  predicate Quiet(s: State) {
    s.claims == [] && s.report.NoReport?
  }

  // The exact law, for every interleaving: updates are printed, live, in the overflow
  // counters, reported, or are stale or late writes. While userspace is quiet nothing else
  // enters but what was printed of keys that stayed.
  lemma ExactLaw(cap: nat, cpus: nat, steps: seq<Step>)
    ensures var s := Run(cap, cpus, steps);
      var stale, late := StaleWrites(cap, cpus, steps), LateWrites(cap, cpus, steps);
      && s.printed + Count(s.live) + s.overflow + s.reported + stale + late
           == s.updates + Pending(s.claims) + PendingReport(s.report) + Doomed(s.live, s.claims) + Unread(s) + s.recounted
      && (Quiet(s) ==> s.printed + Count(s.live) + s.overflow + s.reported + stale + late == s.updates + s.recounted)
  {
    hide Run, StaleWrites, LateWrites;
    RunBalanced(cap, cpus, steps);
    StaleWritesAreLost(cap, cpus, steps);
    LateWritesAreCleared(cap, cpus, steps);
  }

  // Every PID flush met fewer than 256 keys of its PID.
  ghost predicate SmallFlushes(cap: nat, cpus: nat, steps: seq<Step>) {
    |Run(cap, cpus, steps).claims| < 256 && (steps == [] || SmallFlushes(cap, cpus, steps[..|steps| - 1]))
  }

  lemma NextRecounts(cap: nat, s: State, step: Step)
    requires |s.claims| < PID_FLUSH_BATCH
    ensures Next(cap, s, step).recounted == s.recounted
  {
    hide KeyAt, ElemAt, ClaimAt, Hit, Without;
  }

  lemma {:induction false} NothingRecounted(cap: nat, cpus: nat, steps: seq<Step>)
    requires SmallFlushes(cap, cpus, steps)
    ensures Run(cap, cpus, steps).recounted == 0
  {
    hide Next;
    if steps != [] {
      var front := steps[..|steps| - 1];
      NothingRecounted(cap, cpus, front);
      NextRecounts(cap, Run(cap, cpus, front), steps[|steps| - 1]);
    }
  }

  // So with small flushes the counts are exact, while userspace is quiet, if and only if
  // no write was stale or late.
  lemma ExactIff(cap: nat, cpus: nat, steps: seq<Step>)
    requires SmallFlushes(cap, cpus, steps) && Quiet(Run(cap, cpus, steps))
    ensures var s := Run(cap, cpus, steps);
      s.printed + Count(s.live) + s.overflow + s.reported == s.updates
      <==> StaleWrites(cap, cpus, steps) == 0 && LateWrites(cap, cpus, steps) == 0
  {
    hide Run, StaleWrites, LateWrites, SmallFlushes;
    ExactLaw(cap, cpus, steps);
    NothingRecounted(cap, cpus, steps);
  }

  // ---- Runs in which updates and flushes of one key do not overlap ----

  // Some CPU is between lookup and write of a key that a flush is between lookup and
  // delete of.
  ghost predicate Overlap(s: State) {
    exists c :: 0 <= c < |s.cpus| && !s.cpus[c].Idle? && ClaimAt(s.claims, s.cpus[c].key) >= 0
  }

  ghost predicate NoOverlap(cap: nat, cpus: nat, steps: seq<Step>) {
    !Overlap(Run(cap, cpus, steps)) && (steps == [] || NoOverlap(cap, cpus, steps[..|steps| - 1]))
  }

  // Then every held pointer is still the live element of its key.
  ghost predicate Coherent(s: State) {
    Shape(s) && forall c :: 0 <= c < |s.cpus| && s.cpus[c].Holding? ==> Holds(s.live, s.cpus[c].key, s.cpus[c].elem)
  }

  ghost predicate Holds(live: seq<Live>, key: Key, elem: nat) {
    Cell(live, key) != [] && Cell(live, key)[0].elem == elem
  }

  lemma WriteCoherent(cap: nat, s: State, cpu: nat, elem: nat)
    requires Coherent(s) && cpu < |s.cpus|
    ensures Coherent(WriteStep(cap, s, cpu, elem))
  {
    hide KeyAt, ElemAt, Cell, Shape, Hit;
    WriteShape(cap, s, cpu, elem);
    ShapeDistinct(s);
    match s.cpus[cpu]
    case Idle =>
    case Holding(_, held) =>
      var i := ElemAt(s.live, held);
      if i >= 0 {
        CellIs(s.live, i);
        forall key { CellHit(s.live, i, key); }
      }
    case Missed(key) =>
      if KeyAt(s.live, key) < 0 && ElemAt(s.live, elem) < 0 {
        CountIs(s.live, key);
        forall k { CellAppend(s.live, Live(key, elem, 1), k); }
      }
  }

  lemma ShapeDistinct(s: State)
    requires Shape(s)
    ensures DistinctLive(s.live)
  {
  }

  lemma DeleteCoherent(s: State, j: nat)
    requires Coherent(s) && !Overlap(s) && j < |s.claims|
    ensures Coherent(DeleteStep(s, j))
  {
    hide KeyAt, ElemAt, Cell, Shape, Without, ClaimAt;
    DeleteShape(s, j);
    ShapeDistinct(s);
    ClaimIs(s.claims, j);
    var i := KeyAt(s.live, s.claims[j].key);
    if i >= 0 { forall key { CellWithout(s.live, i, key); } }
  }

  lemma ClaimIs(claims: seq<Claim>, j: nat)
    requires j < |claims|
    ensures ClaimAt(claims, claims[j].key) >= 0
  {
  }

  lemma LookUpCoherent(cap: nat, s: State, cpu: nat, key: Key)
    requires Coherent(s)
    ensures Coherent(Next(cap, s, LookUp(cpu, key)))
  {
    hide KeyAt, ElemAt, Cell, Shape;
    NextShape(cap, s, LookUp(cpu, key));
    CountIs(s.live, key);
  }

  lemma NextCoherent(cap: nat, s: State, step: Step)
    requires Coherent(s) && !Overlap(s)
    ensures Coherent(Next(cap, s, step))
  {
    hide KeyAt, ElemAt, ClaimAt, WriteStep, DeleteStep, Shape, Holds, Overlap;
    NextShape(cap, s, step);
    match step
    case LookUp(cpu, key) => LookUpCoherent(cap, s, cpu, key);
    case Write(cpu, elem) => if cpu < |s.cpus| { WriteCoherent(cap, s, cpu, elem); }
    case FlushDelete(j) => if j < |s.claims| { DeleteCoherent(s, j); }
    case _ =>
  }

  // A write in a coherent state without overlap is not stale.
  lemma CoherentIsFresh(s: State, step: Step)
    requires Coherent(s) && !Overlap(s)
    ensures !Stale(s, step)
  {
    hide KeyAt, ElemAt, ClaimAt, Shape;
    if step.Write? && step.cpu < |s.cpus| && s.cpus[step.cpu].Holding? {
      var key := s.cpus[step.cpu].key;
      assert Holds(s.live, key, s.cpus[step.cpu].elem);
      ShapeDistinct(s);
      CountIs(s.live, key);
      CellIs(s.live, KeyAt(s.live, key));
    }
  }

  // If no update's lookup-to-write overlaps a flush's lookup-to-delete of its key, no
  // write is stale.
  lemma {:induction false} NoOverlapNoStale(cap: nat, cpus: nat, steps: seq<Step>)
    requires NoOverlap(cap, cpus, steps)
    ensures Coherent(Run(cap, cpus, steps)) && StaleWrites(cap, cpus, steps) == 0
  {
    if steps == [] {
      RunBalanced(cap, cpus, steps);
    } else {
      hide Next, Stale, Coherent, Overlap;
      var front := steps[..|steps| - 1];
      NoOverlapNoStale(cap, cpus, front);
      NextCoherent(cap, Run(cap, cpus, front), steps[|steps| - 1]);
      CoherentIsFresh(Run(cap, cpus, front), steps[|steps| - 1]);
    }
  }

  // So without overlap only late writes and the surplus of large flushes enter; without
  // these too, every update is accounted for.
  lemma ExactWithoutOverlap(cap: nat, cpus: nat, steps: seq<Step>)
    requires NoOverlap(cap, cpus, steps)
    ensures var s := Run(cap, cpus, steps); var late := LateWrites(cap, cpus, steps);
      var counted, due := s.printed + Count(s.live) + s.overflow + s.reported, s.updates + Pending(s.claims) + PendingReport(s.report);
      && StaleWrites(cap, cpus, steps) == 0
      && counted + late == due + Unread(s) + s.recounted
      && (SmallFlushes(cap, cpus, steps) && late == 0 ==> counted == due)
  {
    hide Run, StaleWrites, LateWrites, SmallFlushes, NoOverlap;
    NoOverlapNoStale(cap, cpus, steps);
    if SmallFlushes(cap, cpus, steps) { NothingRecounted(cap, cpus, steps); }
    RunBalanced(cap, cpus, steps);
    StaleWritesAreLost(cap, cpus, steps);
    LateWritesAreCleared(cap, cpus, steps);
    NothingLost(Run(cap, cpus, steps));
  }

  // Neither tally can be negative.
  lemma NothingLost(s: State)
    requires Shape(s)
    ensures Doomed(s.live, s.claims) >= 0 && Unread(s) >= 0
  {
    hide DistinctLive, DistinctClaims;
    forall j | 0 <= j < |s.claims| ensures CountOf(s.live, s.claims[j].key) >= s.claims[j].count {
      assert Backed(s.live, s.claims[j]);
      CountIs(s.live, s.claims[j].key);
    }
    DoomedNonnegative(s.live, s.claims);
  }

  lemma {:induction false} DoomedNonnegative(live: seq<Live>, claims: seq<Claim>)
    requires forall j :: 0 <= j < |claims| ==> CountOf(live, claims[j].key) >= claims[j].count
    ensures Doomed(live, claims) >= 0
  {
    hide CountOf;
    if claims != [] { DoomedNonnegative(live, claims[..|claims| - 1]); }
  }

  // ---- Witnesses ----

  lemma RunNext(cap: nat, cpus: nat, steps: seq<Step>, step: Step)
    ensures Run(cap, cpus, steps + [step]) == Next(cap, Run(cap, cpus, steps), step)
    ensures StaleWrites(cap, cpus, steps + [step])
      == StaleWrites(cap, cpus, steps) + if Stale(Run(cap, cpus, steps), step) then 1 else 0
    ensures LateWrites(cap, cpus, steps + [step])
      == LateWrites(cap, cpus, steps) + if Late(cap, Run(cap, cpus, steps), step) then 1 else 0
  {
    assert (steps + [step])[..|steps|] == steps;
  }

  // What an idle CPU does to a claimed key.
  lemma ClaimedUpdate(cap: nat, s: State, j: nat, cpu: nat, elem: nat)
    requires Shape(s) && j < |s.claims| && cpu < |s.cpus| && s.cpus[cpu].Idle?
    ensures var s1 := Next(cap, s, LookUp(cpu, s.claims[j].key)); var s2 := Next(cap, s1, Write(cpu, elem));
      && cpu < |s1.cpus| && Stale(s1, Write(cpu, elem))
      && s2.updates == s.updates + 1 && s2.claims == s.claims && s2.lost == s.lost
      && CountOf(s2.live, s.claims[j].key) > s.claims[j].count
  {
    hide KeyAt, ElemAt, ClaimAt, Shape, CountOf;
    var key := s.claims[j].key;
    BackedIsLive(s, j);
    ShapeDistinct(s);
    CellIs(s.live, KeyAt(s.live, key));
    CountsAfterHit(s.live, KeyAt(s.live, key), key);
    ClaimIs(s.claims, j);
    ClaimCount(s, j);
  }

  lemma ClaimCount(s: State, j: nat)
    requires Shape(s) && j < |s.claims|
    ensures CountOf(s.live, s.claims[j].key) >= s.claims[j].count
  {
    assert Backed(s.live, s.claims[j]);
    CountIs(s.live, s.claims[j].key);
  }

  lemma DeleteLoses(s: State, j: nat)
    requires j < |s.claims| && s.claims[j].printed && CountOf(s.live, s.claims[j].key) > s.claims[j].count
    ensures DeleteStep(s, j).lost > s.lost
  {
  }

  // Whatever run came before: once a flush has printed a key and not yet deleted it, an
  // update of that key that completes first is stale, and the delete loses it.
  lemma OverlapLoses(cap: nat, cpus: nat, steps: seq<Step>, j: nat, cpu: nat, elem: nat)
    requires var s := Run(cap, cpus, steps);
      j < |s.claims| && s.claims[j].printed && cpu < |s.cpus| && s.cpus[cpu].Idle?
    ensures var s := Run(cap, cpus, steps);
      var more := steps + [LookUp(cpu, s.claims[j].key)] + [Write(cpu, elem)];
      && Run(cap, cpus, more).updates == s.updates + 1
      && StaleWrites(cap, cpus, more) == StaleWrites(cap, cpus, steps) + 1
      && Run(cap, cpus, more + [FlushDelete(j)]).lost > s.lost
  {
    hide Run, StaleWrites, LateWrites, Stale, Late, CountOf;
    var s := Run(cap, cpus, steps);
    RunBalanced(cap, cpus, steps);
    ClaimedUpdate(cap, s, j, cpu, elem);
    RunNext(cap, cpus, steps, LookUp(cpu, s.claims[j].key));
    LookUpIsFresh(cap, s, cpu, s.claims[j].key);
    var more := steps + [LookUp(cpu, s.claims[j].key)];
    RunNext(cap, cpus, more, Write(cpu, elem));
    RunNext(cap, cpus, more + [Write(cpu, elem)], FlushDelete(j));
    DeleteLoses(Run(cap, cpus, more + [Write(cpu, elem)]), j);
  }

  lemma LookUpIsFresh(cap: nat, s: State, cpu: nat, key: Key)
    ensures !Stale(s, LookUp(cpu, key)) && !Late(cap, s, LookUp(cpu, key))
  {
  }

  // The state after one update of a key, with userspace where claims say.
  function OneHit(cpus: nat, key: Key, elem: nat, claims: seq<Claim>): State {
    Start(cpus).(live := [Live(key, elem, 1)], claims := claims, updates := 1)
  }

  function OneUpdate(key: Key, elem: nat): seq<Step> {
    [LookUp(0, key)] + [Write(0, elem)]
  }

  lemma OneUpdateState(cap: nat, cpus: nat, key: Key, elem: nat)
    requires cap > 0 && cpus > 0
    ensures Run(cap, cpus, OneUpdate(key, elem)) == OneHit(cpus, key, elem, [])
    ensures StaleWrites(cap, cpus, OneUpdate(key, elem)) == 0
  {
    hide Run, StaleWrites, LateWrites;
    var idle := seq(cpus, _ => Idle);
    RunStarts(cap, cpus);
    RunNext(cap, cpus, [], LookUp(0, key));
    assert [] + [LookUp(0, key)] == [LookUp(0, key)];
    assert Run(cap, cpus, [LookUp(0, key)]) == Start(cpus).(cpus := idle[0 := Missed(key)]);
    RunNext(cap, cpus, [LookUp(0, key)], Write(0, elem));
    assert idle[0 := Missed(key)][0 := Idle] == idle;
    assert [] + [Live(key, elem, 1)] == [Live(key, elem, 1)];
  }

  lemma RunStarts(cap: nat, cpus: nat)
    ensures Run(cap, cpus, []) == Start(cpus) && StaleWrites(cap, cpus, []) == 0 && LateWrites(cap, cpus, []) == 0
  {
  }

  function FlushBegins(key: Key, elem: nat): seq<Step> {
    OneUpdate(key, elem) + [FlushLookUp(key)] + [FlushPrint(0)]
  }

  lemma FlushBeginsState(cap: nat, cpus: nat, key: Key, elem: nat)
    requires cap > 0 && cpus > 0
    ensures Run(cap, cpus, FlushBegins(key, elem)) == OneHit(cpus, key, elem, [Claim(key, 1, true)]).(printed := 1)
    ensures StaleWrites(cap, cpus, FlushBegins(key, elem)) == 0
  {
    hide Run, StaleWrites, LateWrites;
    OneUpdateState(cap, cpus, key, elem);
    RunNext(cap, cpus, OneUpdate(key, elem), FlushLookUp(key));
    var three := OneUpdate(key, elem) + [FlushLookUp(key)];
    assert [] + [Claim(key, 1, false)] == [Claim(key, 1, false)];
    assert Run(cap, cpus, three) == OneHit(cpus, key, elem, [Claim(key, 1, false)]);
    RunNext(cap, cpus, three, FlushPrint(0));
  }

  // A run that loses: two updates of one key, of which one is counted nowhere.
  lemma LosingRun(cap: nat, cpus: nat, key: Key, elem: nat)
    requires cap > 0 && cpus > 0
    ensures var s := Run(cap, cpus, FlushBegins(key, elem) + [LookUp(0, key)] + [Write(0, elem)] + [FlushDelete(0)]);
      Quiet(s) && s.updates == 2 && s.printed + Count(s.live) + s.overflow + s.reported == 1
  {
    hide Run, StaleWrites, LateWrites, Count;
    FlushBeginsState(cap, cpus, key, elem);
    var begun, idle := FlushBegins(key, elem), seq(cpus, _ => Idle);
    var s := OneHit(cpus, key, elem, [Claim(key, 1, true)]).(printed := 1);
    RunNext(cap, cpus, begun, LookUp(0, key));
    var five := begun + [LookUp(0, key)];
    assert Run(cap, cpus, five) == s.(cpus := idle[0 := Holding(key, elem)]);
    RunNext(cap, cpus, five, Write(0, elem));
    assert idle[0 := Holding(key, elem)][0 := Idle] == idle;
    assert [Live(key, elem, 1)][0 := Live(key, elem, 2)] == [Live(key, elem, 2)];
    var six := five + [Write(0, elem)];
    assert Run(cap, cpus, six) == s.(live := [Live(key, elem, 2)], updates := 2);
    RunNext(cap, cpus, six, FlushDelete(0));
    assert Without([Live(key, elem, 2)], 0) == [] && Without([Claim(key, 1, true)], 0) == [];
    CountNone();
  }

  lemma CountNone()
    ensures Count([]) == 0
  {
  }

  // Three CPUs miss the key.
  function Crowd(key: Key): seq<Step> {
    [LookUp(0, key)] + [LookUp(1, key)] + [LookUp(2, key)]
  }

  lemma CrowdState(cap: nat, cpus: nat, key: Key)
    requires cpus > 2
    ensures Run(cap, cpus, Crowd(key)) ==
      Start(cpus).(cpus := seq(cpus, _ => Idle)[0 := Missed(key)][1 := Missed(key)][2 := Missed(key)])
  {
    hide Run, StaleWrites, LateWrites;
    RunStarts(cap, cpus);
    RunNext(cap, cpus, [], LookUp(0, key));
    assert [] + [LookUp(0, key)] == [LookUp(0, key)];
    RunNext(cap, cpus, [LookUp(0, key)], LookUp(1, key));
    RunNext(cap, cpus, [LookUp(0, key)] + [LookUp(1, key)], LookUp(2, key));
  }

  // One of them inserts it, one overflows and is reported.
  function ToReport(key: Key, elem: nat): seq<Step> {
    Crowd(key) + [Write(0, elem)] + [Write(1, elem)] + [ReadOverflow]
  }

  lemma ToReportState(cap: nat, cpus: nat, key: Key, elem: nat)
    requires cap > 0 && cpus > 2
    ensures Run(cap, cpus, ToReport(key, elem)) == OneHit(cpus, key, elem, []).(
      cpus := seq(cpus, _ => Idle)[2 := Missed(key)], report := Reading(1), overflow := 1, reported := 1, updates := 2)
  {
    hide Run, StaleWrites, LateWrites, Crowd;
    CrowdState(cap, cpus, key);
    var idle := seq(cpus, _ => Idle);
    var missed := idle[0 := Missed(key)][1 := Missed(key)][2 := Missed(key)];
    RunNext(cap, cpus, Crowd(key), Write(0, elem));
    assert [] + [Live(key, elem, 1)] == [Live(key, elem, 1)];
    var four := Crowd(key) + [Write(0, elem)];
    assert Run(cap, cpus, four) == OneHit(cpus, key, elem, []).(cpus := missed[0 := Idle]);
    RunNext(cap, cpus, four, Write(1, elem));
    assert missed[0 := Idle][1 := Idle] == idle[2 := Missed(key)];
    RunNext(cap, cpus, four + [Write(1, elem)], ReadOverflow);
  }

  // A late write loses as well: three updates, of which one overflows unreported.
  lemma LateRun(cap: nat, cpus: nat, key: Key, elem: nat)
    requires cap > 0 && cpus > 2
    ensures var s := Run(cap, cpus, ToReport(key, elem) + [Write(2, elem)] + [ClearOverflow]);
      Quiet(s) && s.updates == 3 && s.printed + Count(s.live) + s.overflow + s.reported == 2
  {
    hide Run, StaleWrites, LateWrites, Count;
    ToReportState(cap, cpus, key, elem);
    RunNext(cap, cpus, ToReport(key, elem), Write(2, elem));
    RunNext(cap, cpus, ToReport(key, elem) + [Write(2, elem)], ClearOverflow);
    CountNone();
    CountAppend([], Live(key, elem, 1));
    assert [] + [Live(key, elem, 1)] == [Live(key, elem, 1)];
  }

  // Overlap alone does no harm: the write of a CPU that had missed the key goes to the
  // overflow counter, so here nothing is lost although update and flush overlap.
  lemma HarmlessOverlap(cap: nat, cpus: nat, key: Key, elem: nat)
    requires cap > 0 && cpus > 1
    ensures var steps := [LookUp(1, key)] + [LookUp(0, key)] + [Write(0, elem)] + [FlushLookUp(key)] + [Write(1, elem)];
      var s := Run(cap, cpus, steps);
      !NoOverlap(cap, cpus, steps) && StaleWrites(cap, cpus, steps) == 0 && s.overflow == 1 && s.updates == 2
  {
    hide Run, StaleWrites, LateWrites, Overlap;
    var idle := seq(cpus, _ => Idle);
    var missed := idle[1 := Missed(key)];
    var steps := [LookUp(1, key)];
    RunStarts(cap, cpus);
    RunNext(cap, cpus, [], LookUp(1, key));
    assert [] + steps == steps;
    assert Run(cap, cpus, steps) == Start(cpus).(cpus := missed);
    RunNext(cap, cpus, steps, LookUp(0, key));
    steps := steps + [LookUp(0, key)];
    assert Run(cap, cpus, steps) == Start(cpus).(cpus := missed[0 := Missed(key)]);
    RunNext(cap, cpus, steps, Write(0, elem));
    steps := steps + [Write(0, elem)];
    assert missed[0 := Missed(key)][0 := Idle] == missed && [] + [Live(key, elem, 1)] == [Live(key, elem, 1)];
    assert Run(cap, cpus, steps) == OneHit(cpus, key, elem, []).(cpus := missed);
    RunNext(cap, cpus, steps, FlushLookUp(key));
    steps := steps + [FlushLookUp(key)];
    assert [] + [Claim(key, 1, false)] == [Claim(key, 1, false)];
    var s := Run(cap, cpus, steps);
    assert s == OneHit(cpus, key, elem, [Claim(key, 1, false)]).(cpus := missed);
    OverlapAt(s, 1);
    RunNext(cap, cpus, steps, Write(1, elem));
    assert (steps + [Write(1, elem)])[..|steps|] == steps;
    OverlapStays(cap, cpus, steps + [Write(1, elem)]);
  }

  lemma OverlapAt(s: State, cpu: nat)
    requires cpu < |s.cpus| && !s.cpus[cpu].Idle? && ClaimAt(s.claims, s.cpus[cpu].key) >= 0
    ensures Overlap(s)
  {
  }

  lemma OverlapStays(cap: nat, cpus: nat, steps: seq<Step>)
    requires steps != [] && Overlap(Run(cap, cpus, steps[..|steps| - 1]))
    ensures !NoOverlap(cap, cpus, steps)
  {
  }
}
