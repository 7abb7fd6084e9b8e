// View.kt: a component with a mutable list of child views, filled by a
// content block run on it, and rendered depth-first into a ComponentNode
// tree. A content block is arbitrary Kotlin code; here it is the sequence
// of `child(...)` calls it makes, each with its own block (`ViewDecl`).

module Views {
  import opened Values
  import opened Lifecycles
  import opened Nodes
  import opened Updates
  import opened Reconciliation

  /** One `child(id, type, props) { ... }` call, with the calls of its block. */
  datatype ViewDecl = ViewDecl(id: Int32, typ: string, props: Props, content: seq<ViewDecl>)

  /** The tree a view built from `d` renders to: its own id, type and props,
      then its children's trees in the order they were added. */
  function Rendered(d: ViewDecl): ComponentNode
    decreases d, 1
  {
    ComponentNode(d.id, d.typ, Some(d.props), RenderedAll(d.content))
  }

  function RenderedAll(ds: seq<ViewDecl>): (ns: seq<ComponentNode>)
    ensures |ns| == |ds|
    decreases ds, 0
  {
    if ds == [] then [] else [Rendered(ds[0])] + RenderedAll(ds[1..])
  }

  /** `children.map { it.render() }`: the i-th child node is the i-th
      child's tree. */
  lemma {:induction false} RenderedAllAt(ds: seq<ViewDecl>)
    ensures forall i :: 0 <= i < |ds| ==> RenderedAll(ds)[i] == Rendered(ds[i])
    decreases ds
  {
    if ds != [] {
      RenderedAllAt(ds[1..]);
    }
  }

  lemma {:induction false} RenderedAllAppend(ds: seq<ViewDecl>, d: ViewDecl)
    ensures RenderedAll(ds + [d]) == RenderedAll(ds) + [Rendered(d)]
  {
    RenderedAllAt(ds);
    RenderedAllAt(ds + [d]);
  }

  /** A freshly rendered tree has the default lifecycle at every depth, and
      every node has one child per `child` call of its block. */
  lemma {:induction false} RenderedUnmounted(d: ViewDecl)
    ensures Unmounted(Rendered(d))
    ensures |Rendered(d).children| == |d.content|
    decreases d
  {
    RenderedAllAt(d.content);
    forall i | 0 <= i < |d.content|
      ensures Unmounted(Rendered(d).children[i])
    {
      RenderedUnmounted(d.content[i]);
    }
  }

  /** Rendering the same declarations twice and reconciling the two trees
      enqueues nothing. */
  lemma ViewRerenderUnchanged(d: ViewDecl)
    ensures Reconciled(Rendered(d), Rendered(d)) == []
  {
    ReconcileSelf(Rendered(d));
  }

  /** A block that makes one more `child` call at its end reconciles to a
      single AddChild of the new child's tree. */
  lemma ViewChildAppended(d: ViewDecl, e: ViewDecl)
    ensures Reconciled(Rendered(d), Rendered(d.(content := d.content + [e]))) == [AddChild(Rendered(e))]
  {
    var grown := d.(content := d.content + [e]);
    RenderedAllAppend(d.content, e);
    PropsDiffSelf(d.props);
    DiffChildrenCases(RenderedAll(d.content), Rendered(e), Rendered(e), Rendered(e));
    assert Reconciled(Rendered(d), Rendered(grown))
        == [] + ChildUpdates(RenderedAll(d.content), RenderedAll(d.content) + [Rendered(e)]) + [];
  }

  /** `class View(id, type, props = emptyMap()) : Component`. */
  class View {
    const id: Int32
    const typ: string
    const props: Props
    var children: seq<View>
    ghost var Decl: ViewDecl    // the `child` calls that built this view
    ghost var Repr: set<object> // this view and every view below it

    /** The child views are owned below this one, and `Decl` records them. */
    ghost predicate Valid()
      reads this, Repr
      decreases Repr
    {
      && this in Repr
      && Decl.id == id && Decl.typ == typ && Decl.props == props
      && |Decl.content| == |children|
      && forall i :: 0 <= i < |children| ==>
           && children[i] in Repr && children[i].Repr <= Repr && this !in children[i].Repr
           && children[i].Valid() && children[i].Decl == Decl.content[i]
    }

    constructor (id: Int32, typ: string, props: Props := map[])
      ensures Valid() && fresh(Repr)
      ensures Decl == ViewDecl(id, typ, props, []) && children == []
    {
      this.id := id;
      this.typ := typ;
      this.props := props;
      children := [];
      Decl := ViewDecl(id, typ, props, []);
      Repr := {this};
    }

    /** `child(id, type, props, content)`: build a new view, run the block
        on it, then append it to this view's children. */
    method Child(cid: Int32, ctyp: string, cprops: Props := map[], content: seq<ViewDecl> := [])
      requires Valid()
      modifies this
      ensures Valid() && fresh(Repr - old(Repr))
      ensures Decl == old(Decl).(content := old(Decl.content) + [ViewDecl(cid, ctyp, cprops, content)])
      ensures |children| == |old(children)| + 1 && children[..|old(children)|] == old(children)
      decreases content, 1
    {
      var child := new View(cid, ctyp, cprops);
      child.Run(content);
      assert [] + content == content;
      children := children + [child];
      Decl := Decl.(content := Decl.content + [child.Decl]);
      Repr := Repr + child.Repr;
    }

    /** `content()`: run a block on this view, one `child` call after another. */
    method Run(content: seq<ViewDecl>)
      requires Valid()
      modifies this
      ensures Valid() && fresh(Repr - old(Repr))
      ensures Decl == old(Decl).(content := old(Decl.content) + content)
      decreases content, 0
    {
      for i := 0 to |content|
        invariant Valid() && fresh(Repr - old(Repr))
        invariant Decl == old(Decl).(content := old(Decl.content) + content[..i])
      {
        var d := content[i];
        Child(d.id, d.typ, d.props, d.content);
        assert content[..i + 1] == content[..i] + [d];
      }
      assert content[..|content|] == content;
    }

    /** `render`: render the children in order, then wrap them with this
        view's id, type and props. */
    method Render() returns (n: ComponentNode)
      requires Valid()
      ensures n == Rendered(Decl)
      ensures n.id == id && n.typ == typ && n.props == Some(props)
      ensures |n.children| == |children|
      ensures forall i :: 0 <= i < |children| ==> n.children[i] == Rendered(children[i].Decl)
      ensures Unmounted(n)
      decreases Repr
    {
      var childNodes := [];
      for i := 0 to |children|
        invariant |childNodes| == i
        invariant forall j :: 0 <= j < i ==> childNodes[j] == Rendered(Decl.content[j])
      {
        var c := children[i].Render();
        childNodes := childNodes + [c];
      }
      RenderedAllAt(Decl.content);
      RenderedUnmounted(Decl);
      n := ComponentNode(id, typ, Some(props), childNodes);
    }
  }

  /** `view(id, type, props, content)`: a new view with the block run on it. */
  method BuildView(id: Int32, typ: string, props: Props := map[], content: seq<ViewDecl> := []) returns (v: View)
    ensures fresh(v) && fresh(v.Repr) && v.Valid()
    ensures v.Decl == ViewDecl(id, typ, props, content)
  {
    v := new View(id, typ, props);
    v.Run(content);
  }
}
