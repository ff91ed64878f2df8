/**
 The process forest: tree_process_ids and aggregate_tree of tools/process_metrics.py, and
 is_descendant of tools/stress_server.py, over one snapshot.  The
 parent map of a snapshot is arbitrary and may hold cycles.
 */
module ProcessTree {
  import opened Sets
  import opened Wrappers

  datatype Metric = WorkingSetBytes | PrivateBytes | VirtualBytes | HandleCount | ThreadCount | Cpu100ns

  const METRIC_NAMES := [WorkingSetBytes, PrivateBytes, VirtualBytes, HandleCount, ThreadCount, Cpu100ns]

  /** Process ids are only compared with each other. */
  type ProcessId(==, !new)

  datatype Process = Process(parent: Option<ProcessId>, name: Option<string>, metrics: map<Metric, int>)

  type Snapshot = map<ProcessId, Process>

  // ---------------------------------------------------------------- walking to the parents

  /** The `k`-th parent, each step taken from a process of the snapshot. */
  function Up(snapshot: Snapshot, id: ProcessId, k: nat): Option<ProcessId>
    decreases k
  {
    if k == 0 then Some(id)
    else if id in snapshot && snapshot[id].parent.Some? then Up(snapshot, snapshot[id].parent.value, k - 1)
    else None
  }

  ghost predicate Reaches(snapshot: Snapshot, id: ProcessId, root: ProcessId) {
    exists k: nat :: Up(snapshot, id, k) == Some(root)
  }

  /** Some proper ancestor of `id` is among `ancestors`. */
  ghost predicate DescendsFrom(snapshot: Snapshot, id: ProcessId, ancestors: set<ProcessId>) {
    exists k: nat :: k > 0 && Up(snapshot, id, k).Some? && Up(snapshot, id, k).value in ancestors
  }

  predicate ParentIn(snapshot: Snapshot, id: ProcessId, ids: set<ProcessId>) {
    id in snapshot && snapshot[id].parent.Some? && snapshot[id].parent.value in ids
  }

  /** A set of processes that holds every child of its members. */
  ghost predicate Closed(snapshot: Snapshot, ids: set<ProcessId>) {
    forall id :: ParentIn(snapshot, id, ids) ==> id in ids
  }

  lemma {:induction false} UpLast(snapshot: Snapshot, id: ProcessId, k: nat)
    ensures Up(snapshot, id, k + 1) ==
            match Up(snapshot, id, k)
            case Some(p) => (if p in snapshot then snapshot[p].parent else None)
            case None => None
    decreases k
  {
    if k > 0 && id in snapshot && snapshot[id].parent.Some? {
      UpLast(snapshot, snapshot[id].parent.value, k - 1);
    } else if k == 0 && id in snapshot && snapshot[id].parent.Some? {
      assert Up(snapshot, snapshot[id].parent.value, 0) == snapshot[id].parent;
    }
  }

  /** Every closed set around the root holds whatever reaches the root. */
  lemma {:induction false} ClosedHoldsReaching(snapshot: Snapshot, ids: set<ProcessId>, id: ProcessId, root: ProcessId,
                                               k: nat)
    requires root in ids && Closed(snapshot, ids)
    requires Up(snapshot, id, k) == Some(root)
    ensures id in ids
    decreases k
  {
    if k > 0 {
      ClosedHoldsReaching(snapshot, ids, snapshot[id].parent.value, root, k - 1);
      assert ParentIn(snapshot, id, ids);
    }
  }

  lemma ChildReaches(snapshot: Snapshot, id: ProcessId, root: ProcessId)
    requires id in snapshot && snapshot[id].parent.Some?
    requires Reaches(snapshot, snapshot[id].parent.value, root)
    ensures Reaches(snapshot, id, root)
  {
    var k: nat :| Up(snapshot, snapshot[id].parent.value, k) == Some(root);
    assert Up(snapshot, id, k + 1) == Some(root);
  }

  /** The processes below and at the root. */
  ghost function Tree(snapshot: Snapshot, root: ProcessId): set<ProcessId> {
    set id | id in snapshot && root in snapshot && Reaches(snapshot, id, root)
  }

  /** The tree is the least closed set that holds the root. */
  lemma TreeIsLeast(snapshot: Snapshot, root: ProcessId, ids: set<ProcessId>)
    requires root in snapshot
    ensures root in Tree(snapshot, root) && Closed(snapshot, Tree(snapshot, root))
    ensures root in ids && Closed(snapshot, ids) ==> Tree(snapshot, root) <= ids
  {
    assert Up(snapshot, root, 0) == Some(root);
    forall id | ParentIn(snapshot, id, Tree(snapshot, root))
      ensures id in Tree(snapshot, root)
    {
      ChildReaches(snapshot, id, root);
    }
    if root in ids && Closed(snapshot, ids) {
      forall id | id in Tree(snapshot, root)
        ensures id in ids
      {
        var k: nat :| Up(snapshot, id, k) == Some(root);
        ClosedHoldsReaching(snapshot, ids, id, root, k);
      }
    }
  }

  ghost predicate AllReach(snapshot: Snapshot, ids: set<ProcessId>, root: ProcessId) {
    forall id :: id in ids ==> id in snapshot && Reaches(snapshot, id, root)
  }

  /** One pass over the snapshot, in any order. */
  method AddChildren(snapshot: Snapshot, before: set<ProcessId>, ghost root: ProcessId)
    returns (selected: set<ProcessId>, changed: bool)
    requires AllReach(snapshot, before, root)
    ensures AllReach(snapshot, selected, root) && before <= selected
    ensures changed ==> before < selected
    ensures !changed ==> selected == before && Closed(snapshot, selected)
    ensures before == {} ==> selected == {}
  {
    selected, changed := before, false;
    var remaining: set<ProcessId> := snapshot.Keys;
    while remaining != {}
      invariant remaining <= snapshot.Keys
      invariant AllReach(snapshot, selected, root) && before <= selected
      invariant changed ==> before < selected
      invariant !changed ==> selected == before
      invariant before == {} ==> selected == {}
      invariant !changed ==>
                  forall id :: id in snapshot.Keys - remaining && ParentIn(snapshot, id, selected) ==> id in selected
    {
      var id := Pick(remaining);
      if id !in selected && snapshot[id].parent.Some? && snapshot[id].parent.value in selected {
        ChildReaches(snapshot, id, root);
        selected := selected + {id};
        changed := true;
      }
      remaining := remaining - {id};
    }
  }

  lemma Shrinks<T>(all: set<T>, before: set<T>, after: set<T>)
    requires before < after <= all
    ensures all - after < all - before
  {
  }

  /** The fixpoint loop computes the tree, whatever order the snapshot is walked in. */
  method TreeProcessIds(root: ProcessId, snapshot: Snapshot) returns (selected: set<ProcessId>)
    ensures selected == Tree(snapshot, root)
  {
    selected := if root in snapshot then {root} else {};
    assert Up(snapshot, root, 0) == Some(root);
    var changed := true;
    while changed
      invariant root in snapshot ==> root in selected
      invariant root !in snapshot ==> selected == {}
      invariant AllReach(snapshot, selected, root)
      invariant !changed ==> Closed(snapshot, selected)
      decreases snapshot.Keys - selected, changed
    {
      ghost var before := selected;
      selected, changed := AddChildren(snapshot, selected, root);
      assert forall id :: id in selected ==> id in snapshot;
      if changed { Shrinks(snapshot.Keys, before, selected); }
    }
    if root in snapshot {
      TreeIsLeast(snapshot, root, selected);
      assert forall id :: id in selected ==> id in Tree(snapshot, root);
    } else {
      assert Tree(snapshot, root) == {};
    }
  }

  // ---------------------------------------------------------------- the cycle-guarded walk

  /** Nothing in `ids` has a parent among the ancestors, and parents in the snapshot stay in `ids`. */
  ghost predicate DeadEnd(snapshot: Snapshot, ids: set<ProcessId>, ancestors: set<ProcessId>) {
    forall id :: id in ids && id in snapshot && snapshot[id].parent.Some? ==>
      snapshot[id].parent.value !in ancestors && snapshot[id].parent.value in ids
  }

  lemma {:induction false} DeadEndWalk(snapshot: Snapshot, ids: set<ProcessId>, ancestors: set<ProcessId>,
                                       id: ProcessId, k: nat)
    requires DeadEnd(snapshot, ids, ancestors) && id in ids
    ensures k > 0 && Up(snapshot, id, k).Some? ==> Up(snapshot, id, k).value !in ancestors
    decreases k
  {
    if k > 0 && id in snapshot && snapshot[id].parent.Some? {
      var parent := snapshot[id].parent.value;
      if k > 1 {
        DeadEndWalk(snapshot, ids, ancestors, parent, k - 1);
      } else {
        assert Up(snapshot, parent, 0) == Some(parent);
      }
    }
  }

  /** The walk finds an ancestor exactly when there is one, also when it stops at a cycle. */
  method IsDescendant(processId: ProcessId, ancestorIds: set<ProcessId>, snapshot: Snapshot) returns (found: bool)
    ensures found <==> DescendsFrom(snapshot, processId, ancestorIds)
  {
    var seen, current := {}, processId;
    ghost var steps: nat := 0;
    while current !in seen && current in snapshot
      invariant seen <= snapshot.Keys
      invariant Up(snapshot, processId, steps) == Some(current)
      invariant processId in seen + {current}
      invariant forall id :: id in seen ==>
                  && snapshot[id].parent.Some? && snapshot[id].parent.value !in ancestorIds
                  && snapshot[id].parent.value in seen + {current}
      decreases snapshot.Keys - seen
    {
      seen := seen + {current};
      var parent := snapshot[current].parent;
      UpLast(snapshot, processId, steps);
      if parent.Some? && parent.value in ancestorIds {
        return true;
      }
      if parent.None? {
        NoAncestor(snapshot, seen, ancestorIds, processId);
        return false;
      }
      current, steps := parent.value, steps + 1;
    }
    NoAncestor(snapshot, seen + {current}, ancestorIds, processId);
    return false;
  }

  lemma NoAncestor(snapshot: Snapshot, ids: set<ProcessId>, ancestors: set<ProcessId>, id: ProcessId)
    requires DeadEnd(snapshot, ids, ancestors) && id in ids
    ensures !DescendsFrom(snapshot, id, ancestors)
  {
    forall k: nat
      ensures !(k > 0 && Up(snapshot, id, k).Some? && Up(snapshot, id, k).value in ancestors)
    {
      DeadEndWalk(snapshot, ids, ancestors, id, k);
    }
  }

  /** The two tools agree: below a root, the fixpoint and the walk select the same processes. */
  lemma TreeIsDescendants(snapshot: Snapshot, root: ProcessId, id: ProcessId)
    requires root in snapshot && id in snapshot && id != root
    ensures id in Tree(snapshot, root) <==> DescendsFrom(snapshot, id, {root})
  {
  }

  /** The root itself is in its tree, but descends from itself exactly when it sits on a cycle. */
  lemma RootDescendsOnCycle(snapshot: Snapshot, root: ProcessId)
    requires root in snapshot
    ensures root in Tree(snapshot, root)
    ensures DescendsFrom(snapshot, root, {root}) <==>
            snapshot[root].parent.Some? && snapshot[root].parent.value in Tree(snapshot, root)
  {
    TreeIsLeast(snapshot, root, {});
    if DescendsFrom(snapshot, root, {root}) {
      var k: nat :| k > 0 && Up(snapshot, root, k).Some? && Up(snapshot, root, k).value in {root};
      var parent := snapshot[root].parent.value;
      assert Up(snapshot, parent, k - 1) == Some(root);
      if k > 1 {
        assert parent in snapshot;
      } else {
        assert parent == root;
      }
    }
    if snapshot[root].parent.Some? && snapshot[root].parent.value in Tree(snapshot, root) {
      var k: nat :| Up(snapshot, snapshot[root].parent.value, k) == Some(root);
      assert Up(snapshot, root, k + 1) == Some(root) && Up(snapshot, root, k + 1).value in {root};
    }
  }
}
