// find_ssl_target_in_tree of agentsight-capture/src/binary_resolver.rs: a breadth-first
// search of the process tree for something to attach to. Children are what /proc lists
// at the time; the relation may be wrong or cyclic.
module ProcessTree {

  datatype Target = NoTarget | Attach(path: string)

  // children holds the processes whose list could be read; target says for each PID
  // which path (executable or loaded libssl) can be attached to, if any.
  datatype System = System(children: map<nat, seq<nat>>, target: nat -> Target)

  function ChildrenOf(sys: System, pid: nat): seq<nat> {
    if pid in sys.children then sys.children[pid] else []
  }

  // pid is d parent-to-child steps below root.
  ghost predicate AtDepth(sys: System, root: nat, d: nat, pid: nat) {
    if d == 0 then pid == root
    else exists parent :: AtDepth(sys, root, d - 1, parent) && pid in ChildrenOf(sys, parent)
  }

  // Everything the search can ever meet: finitely many PIDs.
  ghost function Universe(sys: System, root: nat): set<nat> {
    {root} + (set p, c | p in sys.children && c in sys.children[p] :: c)
  }

  // The queue with the depth of each entry, and the depth at which each seen PID was
  // expanded.
  datatype Search = Search(queue: seq<nat>, depths: seq<nat>, seen: map<nat, nat>)

  ghost predicate Queued(s: Search, pid: nat, d: nat) {
    exists i :: 0 <= i < |s.queue| && i < |s.depths| && s.queue[i] == pid && s.depths[i] <= d
  }

  ghost predicate Handled(s: Search, pid: nat, d: nat) {
    (pid in s.seen && s.seen[pid] <= d) || Queued(s, pid, d)
  }

  // Queue depths ascend and span at most two levels.
  ghost predicate Ordered(s: Search) {
    && |s.depths| == |s.queue|
    && forall i, j :: 0 <= i < j < |s.depths| ==> s.depths[i] <= s.depths[j] <= s.depths[0] + 1
  }

  ghost predicate InTree(sys: System, root: nat, s: Search) {
    && |s.depths| == |s.queue| && s.seen.Keys <= Universe(sys, root)
    && forall i :: 0 <= i < |s.queue| ==> AtDepth(sys, root, s.depths[i], s.queue[i]) && s.queue[i] in Universe(sys, root)
  }

  // Whatever is seen has no target and lies no deeper than the head of the queue.
  ghost predicate Barren(sys: System, s: Search) {
    forall p :: p in s.seen ==> sys.target(p) == NoTarget && (s.depths != [] ==> s.seen[p] <= s.depths[0])
  }

  // The root is dealt with, and the children of whatever is seen, one level deeper.
  ghost predicate Closed(sys: System, root: nat, s: Search) {
    && Handled(s, root, 0)
    && forall p, c :: p in s.seen && c in ChildrenOf(sys, p) ==> Handled(s, c, s.seen[p] + 1)
  }

  ghost predicate Inv(sys: System, root: nat, s: Search) {
    Ordered(s) && InTree(sys, root, s) && Barren(sys, s) && Closed(sys, root, s)
  }

  // Everything at a depth is seen by then, or queued, or something shallower still waits.
  lemma {:induction false} Frontier(sys: System, root: nat, s: Search, d: nat, pid: nat)
    requires Inv(sys, root, s) && AtDepth(sys, root, d, pid)
    ensures Handled(s, pid, d) || exists i :: 0 <= i < |s.depths| && s.depths[i] < d
  {
    if d > 0 {
      var parent :| AtDepth(sys, root, d - 1, parent) && pid in ChildrenOf(sys, parent);
      Frontier(sys, root, s, d - 1, parent);
      if parent in s.seen && s.seen[parent] <= d - 1 {
        assert Handled(s, pid, s.seen[parent] + 1);
      }
    }
  }

  // Nothing above the head of the queue has a target.
  lemma NothingAbove(sys: System, root: nat, s: Search, d: nat, pid: nat)
    requires Inv(sys, root, s) && AtDepth(sys, root, d, pid)
    requires s.depths == [] || d < s.depths[0]
    ensures sys.target(pid) == NoTarget
  {
    Frontier(sys, root, s, d, pid);
  }

  // The head was seen before.
  function Drop(s: Search): Search
    requires |s.depths| == |s.queue| > 0
  {
    s.(queue := s.queue[1..], depths := s.depths[1..])
  }

  function Expand(sys: System, s: Search): Search
    requires |s.depths| == |s.queue| > 0
  {
    var kids := ChildrenOf(sys, s.queue[0]);
    Search(s.queue[1..] + kids, s.depths[1..] + seq(|kids|, _ => s.depths[0] + 1), s.seen[s.queue[0] := s.depths[0]])
  }

  lemma DropKeeps(sys: System, root: nat, s: Search)
    requires Inv(sys, root, s) && s.queue != [] && s.queue[0] in s.seen
    ensures Inv(sys, root, Drop(s))
  {
    var s' := Drop(s);
    forall pid, d | Handled(s, pid, d) ensures Handled(s', pid, d) {
      if Queued(s, pid, d) && !(pid in s.seen && s.seen[pid] <= d) {
        var i :| 0 <= i < |s.queue| && s.queue[i] == pid && s.depths[i] <= d;
        assert i > 0 && s'.queue[i - 1] == pid && s'.depths[i - 1] <= d;
      }
    }
  }

  lemma ExpandHandles(sys: System, root: nat, s: Search)
    requires Inv(sys, root, s) && s.queue != [] && s.queue[0] !in s.seen
    ensures var s' := Expand(sys, s);
      && (forall pid, d :: Handled(s, pid, d) ==> Handled(s', pid, d))
      && (forall c :: c in ChildrenOf(sys, s.queue[0]) ==> Handled(s', c, s.depths[0] + 1))
  {
    var s' := Expand(sys, s);
    var n := |s.queue| - 1;
    forall pid, d | Handled(s, pid, d) ensures Handled(s', pid, d) {
      if Queued(s, pid, d) {
        var i :| 0 <= i < |s.queue| && s.queue[i] == pid && s.depths[i] <= d;
        if i > 0 { assert s'.queue[i - 1] == pid && s'.depths[i - 1] <= d; }
      }
    }
    var kids := ChildrenOf(sys, s.queue[0]);
    forall c | c in kids ensures Handled(s', c, s.depths[0] + 1) {
      var k :| 0 <= k < |kids| && kids[k] == c;
      assert s'.queue[n + k] == c && s'.depths[n + k] == s.depths[0] + 1;
    }
  }

  lemma ExpandInTree(sys: System, root: nat, s: Search)
    requires InTree(sys, root, s) && s.queue != []
    ensures InTree(sys, root, Expand(sys, s))
  {
    var s' := Expand(sys, s);
    var pid, d := s.queue[0], s.depths[0];
    forall i | 0 <= i < |s'.queue|
      ensures AtDepth(sys, root, s'.depths[i], s'.queue[i]) && s'.queue[i] in Universe(sys, root)
    {
      if i >= |s.queue| - 1 {
        assert s'.queue[i] in ChildrenOf(sys, pid);
        assert AtDepth(sys, root, s'.depths[i] - 1, pid);
      }
    }
  }

  lemma ExpandClosed(sys: System, root: nat, s: Search)
    requires Inv(sys, root, s) && s.queue != [] && s.queue[0] !in s.seen
    ensures Closed(sys, root, Expand(sys, s))
  {
    hide Handled, InTree, Barren;
    var s' := Expand(sys, s);
    ExpandHandles(sys, root, s);
    forall p, c | p in s'.seen && c in ChildrenOf(sys, p) ensures Handled(s', c, s'.seen[p] + 1) {
      if p != s.queue[0] { assert Handled(s, c, s.seen[p] + 1); }
    }
  }

  lemma ExpandOrdered(sys: System, s: Search)
    requires Ordered(s) && s.queue != []
    ensures Ordered(Expand(sys, s))
  {
  }

  lemma ExpandBarren(sys: System, s: Search)
    requires Ordered(s) && Barren(sys, s) && s.queue != [] && sys.target(s.queue[0]) == NoTarget
    ensures Barren(sys, Expand(sys, s))
  {
  }

  lemma ExpandKeeps(sys: System, root: nat, s: Search)
    requires Inv(sys, root, s) && s.queue != [] && s.queue[0] !in s.seen && sys.target(s.queue[0]) == NoTarget
    ensures Inv(sys, root, Expand(sys, s))
  {
    hide Ordered, InTree, Barren, Closed;
    ExpandInTree(sys, root, s);
    ExpandClosed(sys, root, s);
    ExpandOrdered(sys, s);
    ExpandBarren(sys, s);
  }

  // The search ends, whatever the relation; it finds a target exactly when some
  // descendant has one, and none lies closer to the root.
  method FindSslTargetInTree(sys: System, root: nat) returns (r: Target, ghost pid: nat, ghost depth: nat)
    ensures r != NoTarget ==> AtDepth(sys, root, depth, pid) && sys.target(pid) == r
    ensures r != NoTarget ==> forall d: nat, p :: d < depth && AtDepth(sys, root, d, p) ==> sys.target(p) == NoTarget
    ensures r == NoTarget ==> forall d: nat, p :: AtDepth(sys, root, d, p) ==> sys.target(p) == NoTarget
  {
    hide Inv, AtDepth;
    pid, depth := root, 0;
    var queue := [root];
    var seen: set<nat> := {};
    ghost var s := Search([root], [0], map[]);
    InvStarts(sys, root);
    while queue != []
      invariant Inv(sys, root, s) && s.queue == queue && s.seen.Keys == seen
      decreases Universe(sys, root) - seen, |queue|
    {
      InvSizes(sys, root, s);
      var head := queue[0];
      queue := queue[1..];
      if head in seen {
        DropKeeps(sys, root, s);
        s := Drop(s);
        continue;
      }
      seen := seen + {head};
      var target := sys.target(head);
      if target != NoTarget {
        forall d: nat, p | d < s.depths[0] && AtDepth(sys, root, d, p) ensures sys.target(p) == NoTarget {
          NothingAbove(sys, root, s, d, p);
        }
        pid, depth := head, s.depths[0];
        return target, pid, depth;
      }
      ExpandKeeps(sys, root, s);
      s := Expand(sys, s);
      if head in sys.children {
        queue := queue + sys.children[head];
      }
    }
    InvSizes(sys, root, s);
    forall d: nat, p | AtDepth(sys, root, d, p) ensures sys.target(p) == NoTarget {
      NothingAbove(sys, root, s, d, p);
    }
    return NoTarget, root, 0;
  }

  lemma InvStarts(sys: System, root: nat)
    ensures Inv(sys, root, Search([root], [0], map[]))
  {
    var s := Search([root], [0], map[]);
    assert s.queue[0] == root && s.depths[0] == 0;
  }

  lemma InvSizes(sys: System, root: nat, s: Search)
    requires Inv(sys, root, s)
    ensures |s.depths| == |s.queue| && s.seen.Keys <= Universe(sys, root)
    ensures s.queue != [] ==> s.queue[0] in Universe(sys, root) && AtDepth(sys, root, s.depths[0], s.queue[0])
  {
  }
}
