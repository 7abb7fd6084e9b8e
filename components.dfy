// Component.kt: the base component, whose `render` describes it as a
// childless node, and the button, whose `render` carries only its label.
// Kotlin's `open class` / `override` becomes two classes here; both render
// to a ComponentNode that `reconcile` diffs.

module Components {
  import opened Values
  import opened Lifecycles
  import opened Nodes
  import opened Updates
  import opened Reconciliation

  /** `open class Component(id, type, props = emptyMap())`. */
  class Component {
    const id: Int32
    const typ: string
    const props: Props

    constructor (id: Int32, typ: string, props: Props := map[])
      ensures this.id == id && this.typ == typ && this.props == props
    {
      this.id := id;
      this.typ := typ;
      this.props := props;
    }

    /** The lifecycle hooks `componentDidMount` and `componentDidUpdate`
        have empty bodies; with no `modifies` clause they change nothing. */
    method ComponentDidMount()
    {
    }

    method ComponentDidUpdate()
    {
    }

    /** `render`: `ComponentNode(id, type, props)`, a leaf carrying the
        component's own id, type and (non-null) props. */
    function Render(): (n: ComponentNode)
      ensures n.id == id && n.typ == typ && n.props == Some(props)
      ensures n.children == [] && n.lifecycle == DefaultLifecycle
    {
      ComponentNode(id, typ, Some(props))
    }
  }

  /** A component's render is a fresh leaf: its own id, type and (non-null)
      props, no children and the default lifecycle at every depth. */
  lemma ComponentRenderIsLeaf(c: Component)
    ensures c.Render().id == c.id && c.Render().typ == c.typ
    ensures c.Render().props == Some(c.props) && c.Render().children == []
    ensures Unmounted(c.Render())
  {
  }

  /** Re-rendering a component with other props under the same id makes
      `reconcile` enqueue exactly one UpdateProps with the changed props,
      or nothing when no prop changed: no child or lifecycle update. */
  lemma ComponentRerender(a: Component, b: Component)
    requires a.id == b.id
    ensures Reconciled(a.Render(), b.Render())
         == if PropsDiff(a.props, b.props) == map[] then [] else [UpdateProps(PropsDiff(a.props, b.props))]
  {
    ChildUpdatesAligned([], []);
  }

  /** `props["label"] as? String ?: ""`: the label prop when it is a
      string, otherwise (absent, null or another type) the empty string. */
  function InitialLabel(props: Props): (text: string)
    ensures Get(props, "label").Str? ==> text == Get(props, "label").s
    ensures !Get(props, "label").Str? ==> text == ""
  {
    match Get(props, "label")
    case Str(s) => s
    case _ => ""
  }

  /** Setting the "label" prop to a string fixes the label, whatever the
      other props; setting it to anything else, or leaving it out, gives "". */
  lemma InitialLabelCases(props: Props, v: Value)
    ensures v.Str? ==> InitialLabel(props["label" := v]) == v.s
    ensures !v.Str? ==> InitialLabel(props["label" := v]) == ""
    ensures "label" !in props ==> InitialLabel(props) == ""
  {
  }

  /** `class ButtonComponent(id, type, props = emptyMap()) : Component`. */
  class ButtonComponent {
    const id: Int32
    const typ: string
    const props: Props
    var labelText: string  // `label`, a reserved word in Dafny

    constructor (id: Int32, typ: string, props: Props := map[])
      ensures this.id == id && this.typ == typ && this.props == props
      ensures labelText == InitialLabel(props)
    {
      this.id := id;
      this.typ := typ;
      this.props := props;
      labelText := InitialLabel(props);
    }

    /** `render`: the label as the only prop; the other props are not rendered. */
    function Render(): (n: ComponentNode)
      reads this
      ensures n.id == id && n.typ == typ && n.props == Some(map["label" := Str(labelText)])
      ensures n.children == [] && n.lifecycle == DefaultLifecycle
    {
      ComponentNode(id, typ, Some(map["label" := Str(labelText)]))
    }
  }

  /** A button built from a button's rendered props has the same label,
      whatever the original props held besides "label". */
  lemma ButtonLabelRoundTrip(b: ButtonComponent)
    ensures b.Render().props.Some?
    ensures InitialLabel(b.Render().props.value) == b.labelText
    ensures b.Render().props.value.Keys == {"label"} && Unmounted(b.Render())
  {
  }

  /** Two buttons under the same id reconcile to nothing when their labels
      agree (their other props play no part), and otherwise to one
      UpdateProps carrying the new label. */
  lemma ButtonRerender(a: ButtonComponent, b: ButtonComponent)
    requires a.id == b.id
    ensures Reconciled(a.Render(), b.Render())
         == if a.labelText == b.labelText then [] else [UpdateProps(map["label" := Str(b.labelText)])]
  {
    var pa, pb := map["label" := Str(a.labelText)], map["label" := Str(b.labelText)];
    if a.labelText == b.labelText {
      PropsDiffSelf(pa);
    } else {
      assert PropChanged(pa, pb, "label");
      assert PropsDiff(pa, pb) == pb;
    }
    ChildUpdatesAligned([], []);
  }
}
