// Reconciliation.kt: the positional diff of two ComponentNode snapshots.
// `reconcile` enqueues updates in a fixed order: the root's props diff, then
// one update per child index, then the lifecycle transitions.

module Reconciliation {
  import opened Values
  import opened Lifecycles
  import opened Nodes
  import opened Updates
  import opened Queue

  // ---------------------------------------------------------------------
  // diffProps

  /** Whether `diffProps(oldProps, newProps)` holds `key`: an old key whose
      value changed (an absent key reads as null), or a key that only the new
      map has, even when its new value is null. */
  predicate PropChanged(oldProps: Props, newProps: Props, key: string)
  {
    || (key in oldProps && Get(oldProps, key) != Get(newProps, key))
    || (key in newProps && key !in oldProps)
  }

  /** The value of `diffProps(oldProps, newProps)`. */
  function PropsDiff(oldProps: Props, newProps: Props): Props
  {
    map key | key in oldProps.Keys + newProps.Keys && PropChanged(oldProps, newProps, key)
      :: Get(newProps, key)
  }

  /** `diffProps`: two passes over the keys filling a mutable map. */
  method DiffProps(oldProps: Props, newProps: Props) returns (diff: Props)
    ensures forall key :: key in diff <==> PropChanged(oldProps, newProps, key)
    ensures forall key :: key in diff ==> diff[key] == Get(newProps, key)
    ensures diff == PropsDiff(oldProps, newProps)
  {
    diff := map[];
    var keys := oldProps.Keys;
    while keys != {}
      invariant keys <= oldProps.Keys
      invariant forall key :: key in diff <==>
        key in oldProps && key !in keys && Get(oldProps, key) != Get(newProps, key)
      invariant forall key :: key in diff ==> diff[key] == Get(newProps, key)
      decreases keys
    {
      var key :| key in keys;
      if Get(oldProps, key) != Get(newProps, key) {
        diff := diff[key := Get(newProps, key)];
      }
      keys := keys - {key};
    }
    keys := newProps.Keys;
    while keys != {}
      invariant keys <= newProps.Keys
      invariant forall key :: key in diff <==>
        || (key in oldProps && Get(oldProps, key) != Get(newProps, key))
        || (key in newProps && key !in keys && key !in oldProps)
      invariant forall key :: key in diff ==> diff[key] == Get(newProps, key)
      decreases keys
    {
      var key :| key in keys;
      if key !in oldProps {
        diff := diff[key := newProps[key]];
      }
      keys := keys - {key};
    }
  }

  /** Comparing a map with itself yields the empty diff. */
  lemma PropsDiffSelf(m: Props)
    ensures PropsDiff(m, m) == map[]
  {
    assert forall key :: !PropChanged(m, m, key);
  }

  /** Writing the diff over the old map reproduces every value of the new map
      as Kotlin reads it (absent and null alike), and the diff only holds keys
      of the two maps. */
  lemma PropsDiffPatches(oldProps: Props, newProps: Props)
    ensures PropsDiff(oldProps, newProps).Keys <= oldProps.Keys + newProps.Keys
    ensures forall key :: Get(oldProps + PropsDiff(oldProps, newProps), key) == Get(newProps, key)
  {
  }

  /** The examples `{a:1}` vs `{a:1,b:2}` gives `{b:2}` and `{a:1,b:2}` vs
      `{a:1}` gives `{b:null}`. */
  lemma PropsDiffExamples()
    ensures PropsDiff(map[], map[]) == map[]
    ensures PropsDiff(map["a" := Int(1)], map["a" := Int(1), "b" := Int(2)]) == map["b" := Int(2)]
    ensures PropsDiff(map["a" := Int(1), "b" := Int(2)], map["a" := Int(1)]) == map["b" := Null]
  {
    var one, two := map["a" := Int(1)], map["a" := Int(1), "b" := Int(2)];
    assert !PropChanged(one, two, "a") && PropChanged(one, two, "b");
    assert !PropChanged(two, one, "a") && PropChanged(two, one, "b");
  }

  // ---------------------------------------------------------------------
  // diffChildren

  /** `if (i < list.size) list[i] else null` */
  function At(s: seq<ComponentNode>, i: nat): Option<ComponentNode>
  {
    if i < |s| then Some(s[i]) else None
  }

  /** The `when` of `diffChildren` for one index: at most one update. */
  function ChildUpdate(oldChild: Option<ComponentNode>, newChild: Option<ComponentNode>): (r: seq<Update>)
    ensures |r| <= 1
  {
    match (oldChild, newChild)
    case (Some(o), Some(n)) =>
      if o.typ != n.typ then [ReplaceChild(o, n)]
      else if o.props != n.props then
        (match n.props case Some(p) => [UpdateProps(p)] case None => [])
      else []
    case (None, Some(n)) => [AddChild(n)]
    case (Some(o), None) => [RemoveChild(o)]
    case (None, None) => []
  }

  /** The updates the index loop has collected after indices 0..k-1. */
  function ChildUpdatesUpTo(olds: seq<ComponentNode>, news: seq<ComponentNode>, k: nat): seq<Update>
  {
    if k == 0 then []
    else ChildUpdatesUpTo(olds, news, k - 1) + ChildUpdate(At(olds, k - 1), At(news, k - 1))
  }

  function Max(a: nat, b: nat): nat
  {
    if a < b then b else a
  }

  /** The value of `diffChildren(olds, news)`. */
  function ChildUpdates(olds: seq<ComponentNode>, news: seq<ComponentNode>): seq<Update>
  {
    ChildUpdatesUpTo(olds, news, Max(|olds|, |news|))
  }

  /** `diffChildren`: one pass over the indices 0..max(|olds|, |news|)-1. */
  method DiffChildren(olds: seq<ComponentNode>, news: seq<ComponentNode>) returns (updates: seq<Update>)
    ensures updates == ChildUpdates(olds, news)
  {
    updates := [];
    var maxLength := Max(|olds|, |news|);
    for i := 0 to maxLength
      invariant updates == ChildUpdatesUpTo(olds, news, i)
    {
      var oldChild := if i < |olds| then Some(olds[i]) else None;
      var newChild := if i < |news| then Some(news[i]) else None;
      if oldChild.Some? && newChild.Some? {
        if oldChild.value.typ != newChild.value.typ {
          updates := updates + [ReplaceChild(oldChild.value, newChild.value)];
        } else if oldChild.value.props != newChild.value.props {
          if newChild.value.props.Some? {
            updates := updates + [UpdateProps(newChild.value.props.value)];
          }
        }
      } else if oldChild.None? && newChild.Some? {
        updates := updates + [AddChild(newChild.value)];
      } else if oldChild.Some? && newChild.None? {
        updates := updates + [RemoveChild(oldChild.value)];
      }
    }
  }

  /** The list without its head (empty stays empty). */
  function Tail(s: seq<ComponentNode>): (t: seq<ComponentNode>)
    ensures |t| == if s == [] then 0 else |s| - 1
  {
    if s == [] then [] else s[1..]
  }

  /** A reference definition of the positional diff, by recursion on the
      heads of the two lists rather than by an index loop. */
  function PairwiseDiff(olds: seq<ComponentNode>, news: seq<ComponentNode>): seq<Update>
    decreases |olds| + |news|
  {
    if olds == [] && news == [] then []
    else ChildUpdate(At(olds, 0), At(news, 0)) + PairwiseDiff(Tail(olds), Tail(news))
  }

  lemma {:induction false} ChildUpdatesUpToShift(olds: seq<ComponentNode>, news: seq<ComponentNode>, k: nat)
    ensures ChildUpdatesUpTo(olds, news, k + 1)
         == ChildUpdate(At(olds, 0), At(news, 0)) + ChildUpdatesUpTo(Tail(olds), Tail(news), k)
  {
    if k > 0 {
      ChildUpdatesUpToShift(olds, news, k - 1);
      assert At(olds, k) == At(Tail(olds), k - 1);
      assert At(news, k) == At(Tail(news), k - 1);
    }
  }

  /** The index loop and the head-first recursion compute the same updates. */
  lemma {:induction false} ChildUpdatesArePairwise(olds: seq<ComponentNode>, news: seq<ComponentNode>)
    ensures ChildUpdates(olds, news) == PairwiseDiff(olds, news)
    decreases |olds| + |news|
  {
    if olds != [] || news != [] {
      var m := Max(|olds|, |news|);
      assert Max(|Tail(olds)|, |Tail(news)|) == m - 1;
      ChildUpdatesUpToShift(olds, news, m - 1);
      ChildUpdatesArePairwise(Tail(olds), Tail(news));
    }
  }

  /** The diff is positional: diffing two concatenations whose first parts
      have the same length diffs the parts separately, in index order. */
  lemma {:induction false} PairwiseDiffConcat(o1: seq<ComponentNode>, o2: seq<ComponentNode>, n1: seq<ComponentNode>, n2: seq<ComponentNode>)
    requires |o1| == |n1|
    ensures PairwiseDiff(o1 + o2, n1 + n2) == PairwiseDiff(o1, n1) + PairwiseDiff(o2, n2)
    decreases |o1|
  {
    if o1 == [] {
      assert o1 + o2 == o2 && n1 + n2 == n2;
    } else {
      assert Tail(o1 + o2) == Tail(o1) + o2;
      assert Tail(n1 + n2) == Tail(n1) + n2;
      assert At(o1 + o2, 0) == At(o1, 0) && At(n1 + n2, 0) == At(n1, 0);
      PairwiseDiffConcat(Tail(o1), o2, Tail(n1), n2);
    }
  }

  lemma ChildUpdatesConcat(o1: seq<ComponentNode>, o2: seq<ComponentNode>, n1: seq<ComponentNode>, n2: seq<ComponentNode>)
    requires |o1| == |n1|
    ensures ChildUpdates(o1 + o2, n1 + n2) == ChildUpdates(o1, n1) + ChildUpdates(o2, n2)
  {
    ChildUpdatesArePairwise(o1 + o2, n1 + n2);
    ChildUpdatesArePairwise(o1, n1);
    ChildUpdatesArePairwise(o2, n2);
    PairwiseDiffConcat(o1, o2, n1, n2);
  }

  /** Children only on the new side are each added, in order. */
  lemma {:induction false} PairwiseDiffAdds(news: seq<ComponentNode>)
    ensures PairwiseDiff([], news) == AddAll(news)
    decreases |news|
  {
    if news != [] {
      PairwiseDiffAdds(Tail(news));
    }
  }

  /** Children only on the old side are each removed, in order. */
  lemma {:induction false} PairwiseDiffRemoves(olds: seq<ComponentNode>)
    ensures PairwiseDiff(olds, []) == RemoveAll(olds)
    decreases |olds|
  {
    if olds != [] {
      PairwiseDiffRemoves(Tail(olds));
    }
  }

  /** Index-aligned children with the same type and the same props give no
      update, whatever their ids and their own children. */
  lemma {:induction false} PairwiseDiffAligned(olds: seq<ComponentNode>, news: seq<ComponentNode>)
    requires |olds| == |news|
    requires forall i :: 0 <= i < |olds| ==> olds[i].typ == news[i].typ && olds[i].props == news[i].props
    ensures PairwiseDiff(olds, news) == []
    decreases |olds|
  {
    if olds != [] {
      PairwiseDiffAligned(Tail(olds), Tail(news));
    }
  }

  lemma ChildUpdatesAligned(olds: seq<ComponentNode>, news: seq<ComponentNode>)
    requires |olds| == |news|
    requires forall i :: 0 <= i < |olds| ==> olds[i].typ == news[i].typ && olds[i].props == news[i].props
    ensures ChildUpdates(olds, news) == []
  {
    ChildUpdatesArePairwise(olds, news);
    PairwiseDiffAligned(olds, news);
  }

  /** One AddChild per child, in order. */
  function AddAll(s: seq<ComponentNode>): seq<Update>
  {
    seq(|s|, i requires 0 <= i < |s| => AddChild(s[i]))
  }

  /** One RemoveChild per child, in order. */
  function RemoveAll(s: seq<ComponentNode>): seq<Update>
  {
    seq(|s|, i requires 0 <= i < |s| => RemoveChild(s[i]))
  }

  /** The whole shape of the diff when the list grows: the aligned prefix
      diffed pair by pair, then one AddChild per extra new child, in order. */
  lemma PairwiseDiffGrow(olds: seq<ComponentNode>, aligned: seq<ComponentNode>, extra: seq<ComponentNode>)
    requires |olds| == |aligned|
    ensures PairwiseDiff(olds, aligned + extra) == PairwiseDiff(olds, aligned) + AddAll(extra)
  {
    assert olds + [] == olds;
    PairwiseDiffConcat(olds, [], aligned, extra);
    PairwiseDiffAdds(extra);
  }

  /** The same when the list shrinks: one RemoveChild per extra old child. */
  lemma PairwiseDiffShrink(aligned: seq<ComponentNode>, extra: seq<ComponentNode>, news: seq<ComponentNode>)
    requires |aligned| == |news|
    ensures PairwiseDiff(aligned + extra, news) == PairwiseDiff(aligned, news) + RemoveAll(extra)
  {
    assert news + [] == news;
    PairwiseDiffConcat(aligned, extra, news, []);
    PairwiseDiffRemoves(extra);
  }

  /** At most one update per index. */
  lemma {:induction false} ChildUpdatesUpToBound(olds: seq<ComponentNode>, news: seq<ComponentNode>, k: nat)
    ensures |ChildUpdatesUpTo(olds, news, k)| <= k
  {
    if k > 0 {
      ChildUpdatesUpToBound(olds, news, k - 1);
    }
  }

  /** The children diff never produces a lifecycle update. */
  lemma {:induction false} ChildUpdatesUpToNoLifecycle(olds: seq<ComponentNode>, news: seq<ComponentNode>, k: nat)
    ensures forall u :: u in ChildUpdatesUpTo(olds, news, k) ==> !IsLifecycle(u)
  {
    if k > 0 {
      ChildUpdatesUpToNoLifecycle(olds, news, k - 1);
    }
  }

  /** The cases of the unit tests: identical lists, one trailing removal, one
      trailing addition, a type change, a props change. */
  lemma DiffChildrenCases(c: seq<ComponentNode>, extra: ComponentNode, a: ComponentNode, b: ComponentNode)
    ensures ChildUpdates(c, c) == []
    ensures ChildUpdates(c + [extra], c) == [RemoveChild(extra)]
    ensures ChildUpdates(c, c + [extra]) == [AddChild(extra)]
    ensures a.typ != b.typ ==> ChildUpdates([a], [b]) == [ReplaceChild(a, b)]
    ensures a.typ == b.typ && a.props != b.props && b.props.Some? ==>
              ChildUpdates([a], [b]) == [UpdateProps(b.props.value)]
    ensures a.typ == b.typ && a.props != b.props && b.props.None? ==> ChildUpdates([a], [b]) == []
  {
    ChildUpdatesAligned(c, c);
    assert c + [] == c;
    ChildUpdatesConcat(c, [extra], c, []);
    ChildUpdatesConcat(c, [], c, [extra]);
    assert At([extra], 0) == Some(extra) && At([a], 0) == Some(a) && At([b], 0) == Some(b);
    assert ChildUpdates([extra], []) == ChildUpdatesUpTo([extra], [], 1);
    assert ChildUpdates([], [extra]) == ChildUpdatesUpTo([], [extra], 1);
    assert ChildUpdates([a], [b]) == ChildUpdatesUpTo([a], [b], 1);
    assert ChildUpdatesUpTo([a], [b], 1) == [] + ChildUpdate(Some(a), Some(b));
    assert [] + ChildUpdate(Some(a), Some(b)) == ChildUpdate(Some(a), Some(b));
  }

  // ---------------------------------------------------------------------
  // reconcile

  /** The root props update: only when both props are non-null and differ. */
  function RootPropsUpdate(oldNode: ComponentNode, newNode: ComponentNode): seq<Update>
  {
    if oldNode.props.Some? && newNode.props.Some?
       && PropsDiff(oldNode.props.value, newNode.props.value) != map[]
    then [UpdateProps(PropsDiff(oldNode.props.value, newNode.props.value))]
    else []
  }

  /** The three independent lifecycle checks, in source order. */
  function MountUpdate(oldNode: ComponentNode, newNode: ComponentNode): seq<Update>
  {
    if !oldNode.lifecycle.mounted && newNode.lifecycle.mounted then [Mount(newNode)] else []
  }

  function UpdateLifecycleUpdate(oldNode: ComponentNode, newNode: ComponentNode): seq<Update>
  {
    if oldNode.lifecycle.mounted && newNode.lifecycle.updated then [UpdateLifecycle(newNode)] else []
  }

  function UnmountUpdate(oldNode: ComponentNode, newNode: ComponentNode): seq<Update>
  {
    if oldNode.lifecycle.mounted && !newNode.lifecycle.mounted then [Unmount(oldNode)] else []
  }

  function LifecycleUpdates(oldNode: ComponentNode, newNode: ComponentNode): seq<Update>
  {
    MountUpdate(oldNode, newNode) + UpdateLifecycleUpdate(oldNode, newNode) + UnmountUpdate(oldNode, newNode)
  }

  /** The updates `reconcile(oldNode, newNode, queue)` enqueues, in order. */
  function Reconciled(oldNode: ComponentNode, newNode: ComponentNode): seq<Update>
  {
    if oldNode.id != newNode.id then [ReplaceChild(oldNode, newNode)]
    else
      RootPropsUpdate(oldNode, newNode)
      + ChildUpdates(oldNode.children, newNode.children)
      + LifecycleUpdates(oldNode, newNode)
  }

  /** `reconcile`: diff two snapshots onto the tail of the queue. The three
      phases of the source's else-branch are the three calls below. */
  method Reconcile(oldNode: ComponentNode, newNode: ComponentNode, updateQueue: UpdateQueue)
    modifies updateQueue
    ensures updateQueue.queue == old(updateQueue.queue) + Reconciled(oldNode, newNode)
    ensures updateQueue.isFlushing == old(updateQueue.isFlushing)
    ensures updateQueue.applied == old(updateQueue.applied)
  {
    if oldNode.id != newNode.id {
      updateQueue.Enqueue(ReplaceChild(oldNode, newNode));
    } else {
      EnqueuePropsDiff(oldNode, newNode, updateQueue);
      var childUpdates := DiffChildren(oldNode.children, newNode.children);
      EnqueueAll(childUpdates, updateQueue);
      EnqueueLifecycle(oldNode, newNode, updateQueue);
      ghost var props, life := RootPropsUpdate(oldNode, newNode), LifecycleUpdates(oldNode, newNode);
      assert Reconciled(oldNode, newNode) == props + childUpdates + life;
      assert old(updateQueue.queue) + props + childUpdates + life
          == old(updateQueue.queue) + (props + childUpdates + life);
    }
  }

  /** Diff the root's props when both are non-null; enqueue a non-empty diff. */
  method EnqueuePropsDiff(oldNode: ComponentNode, newNode: ComponentNode, updateQueue: UpdateQueue)
    modifies updateQueue
    ensures updateQueue.queue == old(updateQueue.queue) + RootPropsUpdate(oldNode, newNode)
    ensures updateQueue.isFlushing == old(updateQueue.isFlushing)
    ensures updateQueue.applied == old(updateQueue.applied)
  {
    if oldNode.props.Some? && newNode.props.Some? {
      var propUpdates := DiffProps(oldNode.props.value, newNode.props.value);
      if propUpdates != map[] {
        updateQueue.Enqueue(UpdateProps(propUpdates));
      }
    }
  }

  /** The three independent lifecycle checks. */
  method EnqueueLifecycle(oldNode: ComponentNode, newNode: ComponentNode, updateQueue: UpdateQueue)
    modifies updateQueue
    ensures updateQueue.queue == old(updateQueue.queue) + LifecycleUpdates(oldNode, newNode)
    ensures updateQueue.isFlushing == old(updateQueue.isFlushing)
    ensures updateQueue.applied == old(updateQueue.applied)
  {
    var was, now := oldNode.lifecycle, newNode.lifecycle;
    if !was.mounted && now.mounted {
      updateQueue.Enqueue(Mount(newNode));
    }
    ghost var afterMount := updateQueue.queue;
    if was.mounted && now.updated {
      updateQueue.Enqueue(UpdateLifecycle(newNode));
    }
    ghost var afterUpdate := updateQueue.queue;
    if was.mounted && !now.mounted {
      updateQueue.Enqueue(Unmount(oldNode));
    }
    assert afterMount == old(updateQueue.queue) + MountUpdate(oldNode, newNode);
    assert afterUpdate == afterMount + UpdateLifecycleUpdate(oldNode, newNode);
    assert updateQueue.queue == afterUpdate + UnmountUpdate(oldNode, newNode);
  }

  /** `childUpdates.forEach { updateQueue.enqueue(it) }` */
  method EnqueueAll(updates: seq<Update>, updateQueue: UpdateQueue)
    modifies updateQueue
    ensures updateQueue.queue == old(updateQueue.queue) + updates
    ensures updateQueue.isFlushing == old(updateQueue.isFlushing)
    ensures updateQueue.applied == old(updateQueue.applied)
  {
    for i := 0 to |updates|
      invariant updateQueue.queue == old(updateQueue.queue) + updates[..i]
      invariant updateQueue.isFlushing == old(updateQueue.isFlushing)
      invariant updateQueue.applied == old(updateQueue.applied)
    {
      updateQueue.Enqueue(updates[i]);
      assert updates[..i + 1] == updates[..i] + [updates[i]];
    }
    assert updates[..|updates|] == updates;
  }

  /** `requestFlush` (its log line aside) is a flush of the queue. */
  method RequestFlush(updateQueue: UpdateQueue, r: Renderer) returns (outcome: FlushOutcome)
    modifies updateQueue
    ensures old(updateQueue.isFlushing) ==>
      && outcome == Skipped && updateQueue.isFlushing
      && updateQueue.queue == old(updateQueue.queue) && updateQueue.applied == old(updateQueue.applied)
    ensures !old(updateQueue.isFlushing) ==> !updateQueue.isFlushing
    ensures !old(updateQueue.isFlushing) ==>
      var k := FirstRejected(old(updateQueue.queue), r.rejects);
      if k == |old(updateQueue.queue)| then
        outcome == Drained && updateQueue.queue == []
        && updateQueue.applied == old(updateQueue.applied) + Applications(old(updateQueue.queue))
      else
        outcome == Threw(old(updateQueue.queue)[k]) && updateQueue.queue == old(updateQueue.queue)[k + 1..]
        && updateQueue.applied == old(updateQueue.applied) + Applications(old(updateQueue.queue)[..k])
  {
    outcome := updateQueue.Flush(r);
  }

  // ---------------------------------------------------------------------
  // Properties of reconcile

  /** A changed id replaces the whole node and enqueues nothing else. */
  lemma ReconcileIdMismatch(oldNode: ComponentNode, newNode: ComponentNode)
    requires oldNode.id != newNode.id
    ensures Reconciled(oldNode, newNode) == [ReplaceChild(oldNode, newNode, LOW)]
  {
  }

  /** Reconciling a node with itself enqueues nothing, except one
      UpdateLifecycle when the node is both mounted and updated. */
  lemma ReconcileSelf(a: ComponentNode)
    ensures Reconciled(a, a) == if a.lifecycle.mounted && a.lifecycle.updated then [UpdateLifecycle(a)] else []
  {
    if a.props.Some? {
      PropsDiffSelf(a.props.value);
    }
    ChildUpdatesAligned(a.children, a.children);
  }

  /** The root props update, when there is one, is enqueued first. */
  lemma ReconcilePropsFirst(oldNode: ComponentNode, newNode: ComponentNode)
    requires oldNode.id == newNode.id
    requires oldNode.props.Some? && newNode.props.Some?
    requires PropsDiff(oldNode.props.value, newNode.props.value) != map[]
    ensures Reconciled(oldNode, newNode)[0] == UpdateProps(PropsDiff(oldNode.props.value, newNode.props.value))
  {
  }

  /** Lifecycle updates come after every props and child update, and each
      transition is enqueued exactly when its flags say so. Mount excludes
      the other two; UpdateLifecycle and Unmount can both fire. */
  lemma ReconcileLifecycle(oldNode: ComponentNode, newNode: ComponentNode)
    requires oldNode.id == newNode.id
    ensures var r := Reconciled(oldNode, newNode);
      forall i, j :: 0 <= i < j < |r| && IsLifecycle(r[i]) ==> IsLifecycle(r[j])
    ensures var r, was, now := Reconciled(oldNode, newNode), oldNode.lifecycle, newNode.lifecycle;
      && (Mount(newNode) in r <==> !was.mounted && now.mounted)
      && (UpdateLifecycle(newNode) in r <==> was.mounted && now.updated)
      && (Unmount(oldNode) in r <==> was.mounted && !now.mounted)
    ensures var r := Reconciled(oldNode, newNode);
      (exists u :: u in r && u.Mount?) ==> forall u :: u in r ==> !u.UpdateLifecycle? && !u.Unmount?
  {
    var front := RootPropsUpdate(oldNode, newNode) + ChildUpdates(oldNode.children, newNode.children);
    var life := LifecycleUpdates(oldNode, newNode);
    ChildUpdatesUpToNoLifecycle(oldNode.children, newNode.children, Max(|oldNode.children|, |newNode.children|));
    assert forall u :: u in front ==> !IsLifecycle(u);
    assert forall u :: u in life ==> IsLifecycle(u);
    assert Reconciled(oldNode, newNode) == front + life;
    forall i, j | 0 <= i < j < |front + life| && IsLifecycle((front + life)[i])
      ensures IsLifecycle((front + life)[j])
    {
      assert i >= |front|;
      assert (front + life)[j] == life[j - |front|];
    }
  }

  /** An unmounting node that also carries the updated flag gets both
      UpdateLifecycle and Unmount, in that order, at the end. */
  lemma ReconcileUpdateThenUnmount(oldNode: ComponentNode, newNode: ComponentNode)
    requires oldNode.id == newNode.id
    requires oldNode.lifecycle.mounted && !newNode.lifecycle.mounted && newNode.lifecycle.updated
    ensures var r := Reconciled(oldNode, newNode);
      |r| >= 2 && r[|r| - 2..] == [UpdateLifecycle(newNode), Unmount(oldNode)]
  {
  }

  /** The end-to-end example: a root with one text child whose `text` prop
      changes from "hi" to "bye" gives exactly one UpdateProps with the new props. */
  lemma ReconcileTextChange()
    ensures Reconciled(
      ComponentNode(0, "node", children := [ComponentNode(1, "text", Some(map["text" := Str("hi")]))]),
      ComponentNode(0, "node", children := [ComponentNode(1, "text", Some(map["text" := Str("bye")]))]))
      == [UpdateProps(map["text" := Str("bye")])]
  {
    var hi, bye := map["text" := Str("hi")], map["text" := Str("bye")];
    assert hi["text"] != bye["text"];
    var a, b := ComponentNode(1, "text", Some(hi)), ComponentNode(1, "text", Some(bye));
    DiffChildrenCases([], a, a, b);
  }
}
