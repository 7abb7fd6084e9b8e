// UpdateQueue.kt: a FIFO buffer of updates with a non-reentrant flush.
// The `apply*` handlers only print in the source; here each one records the
// call it received in the ghost log `applied`. What the external renderer does
// while a handler runs is a parameter: it may reject the update (the handler
// throws) or call `flush` again from inside the handler.

module Queue {
  import opened Values
  import opened Nodes
  import opened Updates

  /** One call of a private `apply*` handler, with the arguments it received. */
  datatype Applied =
    | Replaced(oldNode: ComponentNode, newNode: ComponentNode)
    | PropsApplied(props: Props)
    | ChildAdded(child: ComponentNode)
    | ChildRemoved(child: ComponentNode)
    | Mounted(node: ComponentNode)
    | LifecycleUpdated(node: ComponentNode)
    | Unmounted(node: ComponentNode)

  /** `applyUpdate`'s `when`: the one handler call a variant is dispatched to. */
  function Dispatch(u: Update): (a: Applied)
    ensures u.ReplaceChild? <==> a.Replaced?
    ensures u.UpdateProps? <==> a.PropsApplied?
    ensures u.AddChild? <==> a.ChildAdded?
    ensures u.RemoveChild? <==> a.ChildRemoved?
    ensures u.Mount? <==> a.Mounted?
    ensures u.UpdateLifecycle? <==> a.LifecycleUpdated?
    ensures u.Unmount? <==> a.Unmounted?
  {
    match u
    case ReplaceChild(o, n, _) => Replaced(o, n)
    case UpdateProps(p, _) => PropsApplied(p)
    case AddChild(c, _) => ChildAdded(c)
    case RemoveChild(c, _) => ChildRemoved(c)
    case Mount(n, _) => Mounted(n)
    case UpdateLifecycle(n, _) => LifecycleUpdated(n)
    case Unmount(n, _) => Unmounted(n)
  }

  /** Dispatch ignores the priority and nothing else: two updates reach the
      same handler with the same arguments exactly when they differ at most
      in priority. */
  lemma DispatchIgnoresOnlyPriority(u: Update, v: Update)
    ensures Dispatch(u) == Dispatch(v) <==> WithPriority(u, LOW) == WithPriority(v, LOW)
  {
  }

  /** The handler calls made by applying `q` front to back. */
  function Applications(q: seq<Update>): seq<Applied>
  {
    if q == [] then [] else [Dispatch(q[0])] + Applications(q[1..])
  }

  /** Applying a buffer calls one handler per buffered update, the i-th call
      for the i-th update: each update is applied exactly once, in FIFO order. */
  lemma {:induction false} ApplicationsExactlyOnce(q: seq<Update>)
    ensures |Applications(q)| == |q|
    ensures forall i :: 0 <= i < |q| ==> Applications(q)[i] == Dispatch(q[i])
  {
    if q != [] {
      ApplicationsExactlyOnce(q[1..]);
    }
  }

  lemma {:induction false} ApplicationsAppend(a: seq<Update>, b: seq<Update>)
    ensures Applications(a + b) == Applications(a) + Applications(b)
  {
    if a == [] {
      assert a + b == b;
    } else {
      assert (a + b)[1..] == a[1..] + b;
      ApplicationsAppend(a[1..], b);
    }
  }

  /** Priority plays no part in application: two buffers that differ only in
      their updates' priorities make the same handler calls in the same order. */
  lemma {:induction false} ApplicationsIgnorePriority(q: seq<Update>, r: seq<Update>)
    requires |q| == |r|
    requires forall i :: 0 <= i < |q| ==> WithPriority(q[i], LOW) == WithPriority(r[i], LOW)
    ensures Applications(q) == Applications(r)
  {
    if q != [] {
      DispatchIgnoresOnlyPriority(q[0], r[0]);
      ApplicationsIgnorePriority(q[1..], r[1..]);
    }
  }

  /** What the external side does while a handler runs. */
  datatype Renderer = Renderer(
    rejects: Update -> bool,          // the handler for this update throws
    flushesFromApply: Update -> bool) // the handler calls `flush` again

  /** The index of the first update in `q` that the renderer rejects, or |q|. */
  function FirstRejected(q: seq<Update>, rejects: Update -> bool): (k: nat)
    ensures k <= |q|
    ensures forall i :: 0 <= i < k ==> !rejects(q[i])
    ensures k < |q| ==> rejects(q[k])
  {
    if q == [] then 0
    else if rejects(q[0]) then 0
    else 1 + FirstRejected(q[1..], rejects)
  }

  /** How a call of `flush` ended. */
  datatype FlushOutcome =
    | Skipped         // a flush was already running: returned at once
    | Drained         // every buffered update was applied
    | Threw(failed: Update) // applying `failed` threw; the exception propagates

  class UpdateQueue {
    var queue: seq<Update>
    var isFlushing: bool
    ghost var applied: seq<Applied>

    constructor ()
      ensures queue == [] && !isFlushing && applied == []
    {
      queue := [];
      isFlushing := false;
      applied := [];
    }

    /** `enqueue`: append at the tail. */
    method Enqueue(update: Update)
      modifies this
      ensures queue == old(queue) + [update]
      ensures isFlushing == old(isFlushing) && applied == old(applied)
    {
      queue := queue + [update];
    }

    /** `flush`. While a flush runs, a second call returns at once and changes
        nothing. Otherwise the buffer is drained front to back, each update
        removed before it is applied; if applying the k-th update throws, the
        updates before it have been applied, it is gone too and the rest stay
        buffered in order. `isFlushing` is false again on every exit path. */
    method Flush(r: Renderer) returns (outcome: FlushOutcome)
      modifies this
      decreases if isFlushing then 0 else 1, 0
      ensures old(isFlushing) ==>
        outcome == Skipped && isFlushing && queue == old(queue) && applied == old(applied)
      ensures !old(isFlushing) ==> !isFlushing
      ensures !old(isFlushing) ==>
        var k := FirstRejected(old(queue), r.rejects);
        if k == |old(queue)| then
          outcome == Drained && queue == [] && applied == old(applied) + Applications(old(queue))
        else
          outcome == Threw(old(queue)[k]) && queue == old(queue)[k + 1..]
          && applied == old(applied) + Applications(old(queue)[..k])
    {
      if isFlushing {
        return Skipped;
      }
      isFlushing := true;
      outcome := Drained;
      ghost var q0, a0 := queue, applied;
      ghost var done := 0;
      while queue != []
        invariant isFlushing
        invariant done <= |q0| && queue == q0[done..]
        invariant forall i :: 0 <= i < done ==> !r.rejects(q0[i])
        invariant applied == a0 + Applications(q0[..done])
        invariant outcome == Drained
        decreases |queue|
      {
        var update := queue[0];
        queue := queue[1..];
        var ok := ApplyUpdate(update, r);
        if !ok {
          outcome := Threw(update);
          break;
        }
        ApplicationsAppend(q0[..done], [update]);
        assert q0[..done + 1] == q0[..done] + [update];
        done := done + 1;
      }
      isFlushing := false;
      assert outcome == Drained ==> q0[..done] == q0;
    }

    /** `applyUpdate`: call the one handler matching the variant. */
    method ApplyUpdate(update: Update, r: Renderer) returns (ok: bool)
      requires isFlushing
      modifies this
      decreases 0, 1
      ensures ok == !r.rejects(update)
      ensures isFlushing && queue == old(queue)
      ensures applied == old(applied) + (if ok then [Dispatch(update)] else [])
    {
      if r.rejects(update) {
        return false;
      }
      match update {
      case ReplaceChild(o, n, _) => ApplyReplace(o, n);
      case UpdateProps(p, _) => ApplyProps(p);
      case AddChild(c, _) => ApplyAddChild(c);
      case RemoveChild(c, _) => ApplyRemoveChild(c);
      case Mount(n, _) => ApplyMount(n);
      case UpdateLifecycle(n, _) => ApplyUpdateLifecycle(n);
      case Unmount(n, _) => ApplyUnmount(n);
      }
      if r.flushesFromApply(update) {
        var nested := Flush(r);
      }
      ok := true;
    }

    method ApplyReplace(oldNode: ComponentNode, newNode: ComponentNode)
      modifies this
      ensures applied == old(applied) + [Replaced(oldNode, newNode)]
      ensures queue == old(queue) && isFlushing == old(isFlushing)
    {
      applied := applied + [Replaced(oldNode, newNode)];
    }

    method ApplyProps(props: Props)
      modifies this
      ensures applied == old(applied) + [PropsApplied(props)]
      ensures queue == old(queue) && isFlushing == old(isFlushing)
    {
      applied := applied + [PropsApplied(props)];
    }

    method ApplyAddChild(child: ComponentNode)
      modifies this
      ensures applied == old(applied) + [ChildAdded(child)]
      ensures queue == old(queue) && isFlushing == old(isFlushing)
    {
      applied := applied + [ChildAdded(child)];
    }

    method ApplyRemoveChild(child: ComponentNode)
      modifies this
      ensures applied == old(applied) + [ChildRemoved(child)]
      ensures queue == old(queue) && isFlushing == old(isFlushing)
    {
      applied := applied + [ChildRemoved(child)];
    }

    method ApplyMount(node: ComponentNode)
      modifies this
      ensures applied == old(applied) + [Mounted(node)]
      ensures queue == old(queue) && isFlushing == old(isFlushing)
    {
      applied := applied + [Mounted(node)];
    }

    method ApplyUpdateLifecycle(node: ComponentNode)
      modifies this
      ensures applied == old(applied) + [LifecycleUpdated(node)]
      ensures queue == old(queue) && isFlushing == old(isFlushing)
    {
      applied := applied + [LifecycleUpdated(node)];
    }

    method ApplyUnmount(node: ComponentNode)
      modifies this
      ensures applied == old(applied) + [Unmounted(node)]
      ensures queue == old(queue) && isFlushing == old(isFlushing)
    {
      applied := applied + [Unmounted(node)];
    }
  }
}
