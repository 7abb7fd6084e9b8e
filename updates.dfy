// Update.kt: the sealed class of mutation instructions, each with a priority.

module Updates {
  import opened Values
  import opened Nodes

  datatype Priority = HIGH | LOW

  /** The seven variants of `sealed class Update`; `Mount` defaults to HIGH,
      every other variant to LOW, and any of them may be given explicitly. */
  datatype Update =
    | ReplaceChild(oldNode: ComponentNode, newNode: ComponentNode, priority: Priority := LOW)
    | UpdateProps(props: Props, priority: Priority := LOW)
    | AddChild(child: ComponentNode, priority: Priority := LOW)
    | RemoveChild(child: ComponentNode, priority: Priority := LOW)
    | Mount(node: ComponentNode, priority: Priority := HIGH)
    | UpdateLifecycle(node: ComponentNode, priority: Priority := LOW)
    | Unmount(node: ComponentNode, priority: Priority := LOW)

  /** The same update with its priority replaced. */
  function WithPriority(u: Update, p: Priority): (r: Update)
    ensures r.priority == p
  {
    u.(priority := p)
  }

  /** The variants that lifecycle transitions produce. */
  predicate IsLifecycle(u: Update)
  {
    u.Mount? || u.UpdateLifecycle? || u.Unmount?
  }

  /** The default priorities: `Mount` is HIGH, the other six are LOW; an
      explicit argument overrides the default and the payload is kept as given. */
  lemma DefaultPriorities(a: ComponentNode, b: ComponentNode, p: Props, q: Priority)
    ensures Mount(a).priority == HIGH
    ensures ReplaceChild(a, b).priority == LOW && UpdateProps(p).priority == LOW
    ensures AddChild(a).priority == LOW && RemoveChild(a).priority == LOW
    ensures UpdateLifecycle(a).priority == LOW && Unmount(a).priority == LOW
    ensures Mount(a, q).priority == q && ReplaceChild(a, b, q).priority == q
    ensures ReplaceChild(a, b).oldNode == a && ReplaceChild(a, b).newNode == b
  {
  }
}
