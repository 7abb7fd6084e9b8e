// ComponentLifecycle.kt and ComponentNode.kt: the immutable description of a
// rendered element. Kotlin data classes compare structurally, as datatypes do.

module Lifecycles {

  /** `ComponentLifecycle(mounted = false, updated = false)` */
  datatype ComponentLifecycle = ComponentLifecycle(mounted: bool := false, updated: bool := false)

  /** The lifecycle a node gets when none is given. */
  const DefaultLifecycle := ComponentLifecycle()

  /** The default lifecycle is neither mounted nor updated, and the two flags
      are independent: all four combinations exist and are pairwise distinct. */
  lemma LifecycleFlags()
    ensures !DefaultLifecycle.mounted && !DefaultLifecycle.updated
    ensures forall m: bool, u: bool :: ComponentLifecycle(m, u).mounted == m && ComponentLifecycle(m, u).updated == u
    ensures forall a: ComponentLifecycle, b: ComponentLifecycle ::
              a == b <==> a.mounted == b.mounted && a.updated == b.updated
  {
  }
}

module Nodes {
  import opened Values
  import opened Lifecycles

  /** `ComponentNode(id, type, props = null, children = emptyList(), componentLifecycle = ComponentLifecycle())`;
      `props` is nullable, which `Option` models. */
  datatype ComponentNode = ComponentNode(
    id: Int32,
    typ: string,
    props: Option<Props> := None,
    children: seq<ComponentNode> := [],
    lifecycle: ComponentLifecycle := DefaultLifecycle)

  /** The secondary constructor `ComponentNode(id, type)`. */
  function NewNode(id: Int32, typ: string): (n: ComponentNode)
    ensures n.props == None && n.children == [] && n.lifecycle == DefaultLifecycle
    ensures n.id == id && n.typ == typ
  {
    ComponentNode(id, typ, props := None)
  }

  /** Absent props (`null`) and an empty props map are different nodes. */
  lemma NullPropsDifferFromEmpty(id: Int32, typ: string)
    ensures ComponentNode(id, typ, None) != ComponentNode(id, typ, Some(map[]))
  {
  }

  /** Every node of the tree, at every depth, carries the default lifecycle. */
  ghost predicate Unmounted(n: ComponentNode)
    decreases n
  {
    && n.lifecycle == DefaultLifecycle
    && forall i :: 0 <= i < |n.children| ==> Unmounted(n.children[i])
  }
}
