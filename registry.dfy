// XFramesWrapper.kt: the widget registration service (an id counter, the
// widget registry and the click-callback registry), the `WidgetNode` record
// and its JSON adapter. The native calls, the Moshi adapters of the
// `Json*` op records and the two locks are not modelled.

module Registry {
  import opened Values

  /** `WidgetNode(type, props, children, id)`. */
  datatype WidgetNode = WidgetNode(
    typ: string,
    props: Props := map[],
    children: seq<WidgetNode> := [],
    id: Int32)

  const TwoTo32: int := 0x1_0000_0000

  /** The ids handed out by `n` successive calls of `getNextWidgetId` when
      the counter starts at `start`: each call returns the counter and then
      increments it with Kotlin's `Int` wrap-around. */
  function IdsIssued(start: Int32, n: nat): (ids: seq<Int32>)
    ensures |ids| == n
    decreases n
  {
    if n == 0 then [] else [start] + IdsIssued(Wrap32(start + 1), n - 1)
  }

  /** Wrapping once or at the end gives the same `Int`. */
  lemma WrapShift(x: int, i: int)
    ensures Wrap32(Wrap32(x) + i) == Wrap32(x + i)
  {
    var a := x - MinInt32;
    assert a == TwoTo32 * (a / TwoTo32) + a % TwoTo32;
    ModAddMultiple(a / TwoTo32, a % TwoTo32 + i);
  }

  lemma ModAddMultiple(q: int, b: int)
    ensures (TwoTo32 * q + b) % TwoTo32 == b % TwoTo32
  {
  }

  /** Wrapping is a difference of a whole number of 2^32 steps. */
  lemma WrapOffset(x: int) returns (q: int)
    ensures Wrap32(x) == x - 0x1_0000_0000 * q
  {
    var a := x - MinInt32;
    q := a / 0x1_0000_0000;
    assert a == 0x1_0000_0000 * q + a % 0x1_0000_0000;
  }

  /** Closed form: the i-th call returns `start + i`, wrapped. */
  lemma {:induction false} IdsIssuedAt(start: Int32, n: nat)
    ensures forall i :: 0 <= i < n ==> IdsIssued(start, n)[i] == Wrap32(start + i)
    decreases n
  {
    if n > 0 {
      var next := Wrap32(start + 1);
      IdsIssuedAt(next, n - 1);
      forall i | 1 <= i < n
        ensures IdsIssued(start, n)[i] == Wrap32(start + i)
      {
        WrapShift(start + 1, i - 1);
      }
    }
  }

  /** One more call appends one more id. */
  lemma IdsIssuedSnoc(start: Int32, n: nat)
    ensures IdsIssued(start, n + 1) == IdsIssued(start, n) + [Wrap32(start + n)]
  {
    IdsIssuedAt(start, n);
    IdsIssuedAt(start, n + 1);
  }

  /** Fewer than 2^32 successive calls never hand out the same id twice. */
  lemma IdsIssuedDistinct(start: Int32, n: nat)
    requires n <= TwoTo32
    ensures forall i, j :: 0 <= i < j < n ==> IdsIssued(start, n)[i] != IdsIssued(start, n)[j]
  {
    IdsIssuedAt(start, n);
    forall i, j | 0 <= i < j < n
      ensures IdsIssued(start, n)[i] != IdsIssued(start, n)[j]
    {
      WrapInjective(start + i, j - i);
    }
  }

  /** While fewer than 2^32 ids have been handed out from 0, the next one,
      the counter's value, is not among them. */
  lemma IdsIssuedFresh(n: nat)
    requires n < TwoTo32
    ensures Wrap32(n) !in IdsIssued(0, n)
  {
    IdsIssuedAt(0, n);
    forall i | 0 <= i < n
      ensures IdsIssued(0, n)[i] != Wrap32(n)
    {
      WrapInjective(i, n - i);
    }
  }

  /** Two integers less than 2^32 apart wrap to different `Int`s. */
  lemma WrapInjective(x: int, d: int)
    requires 0 < d < 0x1_0000_0000
    ensures Wrap32(x) != Wrap32(x + d)
  {
    var q1 := WrapOffset(x);
    var q2 := WrapOffset(x + d);
    assert Wrap32(x + d) - Wrap32(x) == d - 0x1_0000_0000 * (q2 - q1);
  }

  /** From a fresh counter the first 2^31 ids are 0, 1, 2, ... */
  lemma IdsFromZero(n: nat)
    requires n <= MaxInt32 + 1
    ensures forall i :: 0 <= i < n ==> IdsIssued(0, n)[i] == i
  {
    IdsIssuedAt(0, n);
  }

  /** Among more than 2^31 ids from a fresh counter, the one after
      `Int.MAX_VALUE` is `Int.MIN_VALUE`; and the id of call 2^32 + 1 equals
      the first: ids repeat. */
  lemma IdsWrapAround(start: Int32, n: nat)
    requires n > TwoTo32
    ensures IdsIssued(0, n)[MaxInt32] == MaxInt32
    ensures IdsIssued(0, n)[MaxInt32 + 1] == MinInt32
    ensures IdsIssued(start, n)[TwoTo32] == start
  {
    IdsIssuedAt(0, n);
    assert IdsIssued(0, n)[MaxInt32 + 1] == Wrap32(MaxInt32 + 1);
    IdsIssuedAt(start, n);
    assert IdsIssued(start, n)[TwoTo32] == Wrap32(start + TwoTo32);
    WrapShift(start, TwoTo32);
  }

  /** `object widgetRegistrationService`. */
  class WidgetRegistrationService {
    var lastWidgetId: Int32
    var widgetRegistry: map<Int32, WidgetNode>
    var onClickRegistry: CallbackTable
    ghost var issued: seq<Int32>     // every id `getNextWidgetId` has returned
    ghost var invoked: seq<Handler>  // every click callback run, in order

    /** The counter is the number of ids handed out, wrapped, and those ids
        are the counter's successive values from 0. */
    ghost predicate Valid()
      reads this
    {
      issued == IdsIssued(0, |issued|) && lastWidgetId == Wrap32(|issued|)
    }

    constructor ()
      ensures Valid() && issued == [] && invoked == []
      ensures lastWidgetId == 0 && widgetRegistry == map[] && onClickRegistry == map[]
    {
      lastWidgetId := 0;
      widgetRegistry := map[];
      onClickRegistry := map[];
      issued := [];
      invoked := [];
    }

    /** `getNextWidgetId`: `lastWidgetId++`. Until 2^32 ids have been handed
        out, the id returned has never been returned before. */
    method GetNextWidgetId() returns (id: Int32)
      requires Valid()
      modifies this
      ensures Valid()
      ensures id == old(lastWidgetId) && lastWidgetId == Wrap32(old(lastWidgetId) + 1)
      ensures issued == old(issued) + [id]
      ensures |old(issued)| < TwoTo32 ==> id !in old(issued)
      ensures widgetRegistry == old(widgetRegistry) && onClickRegistry == old(onClickRegistry)
      ensures invoked == old(invoked)
    {
      id := lastWidgetId;
      lastWidgetId := Wrap32(lastWidgetId + 1);
      ghost var n := |issued|;
      IdsIssuedSnoc(0, n);
      WrapShift(n, 1);
      if n < TwoTo32 {
        IdsIssuedFresh(n);
      }
      issued := issued + [id];
    }

    /** `getWidgetById`: the widget registered under `id`, or `null`. */
    function GetWidgetById(id: Int32): (w: Option<WidgetNode>)
      reads this
      ensures w.Some? <==> id in widgetRegistry
      ensures w.Some? ==> w.value == widgetRegistry[id]
    {
      if id in widgetRegistry then Some(widgetRegistry[id]) else None
    }

    /** `registerWidget`: a later registration under the same id replaces the
        earlier one; other ids are unaffected. */
    method RegisterWidget(id: Int32, widget: WidgetNode)
      modifies this
      ensures widgetRegistry == old(widgetRegistry)[id := widget]
      ensures GetWidgetById(id) == Some(widget)
      ensures forall other :: other != id ==> GetWidgetById(other) == old(GetWidgetById(other))
      ensures lastWidgetId == old(lastWidgetId) && issued == old(issued)
      ensures onClickRegistry == old(onClickRegistry) && invoked == old(invoked)
    {
      widgetRegistry := widgetRegistry[id := widget];
    }

    /** `registerWidgetForOnClickEvent`. */
    method RegisterWidgetForOnClickEvent(id: Int32, fn: Handler)
      modifies this
      ensures onClickRegistry == old(onClickRegistry)[id := fn]
      ensures Fired(onClickRegistry, id) == [fn]
      ensures lastWidgetId == old(lastWidgetId) && issued == old(issued)
      ensures widgetRegistry == old(widgetRegistry) && invoked == old(invoked)
    {
      onClickRegistry := onClickRegistry[id := fn];
      FiredAfterRegister(old(onClickRegistry), id, fn, id);
    }

    /** `dispatchOnClickEvent`: run the callback registered under `id`, if
        any; an unknown id is silently ignored. */
    method DispatchOnClickEvent(id: Int32)
      modifies this
      ensures invoked == old(invoked) + Fired(onClickRegistry, id)
      ensures id in onClickRegistry ==> invoked == old(invoked) + [onClickRegistry[id]]
      ensures id !in onClickRegistry ==> invoked == old(invoked)
      ensures onClickRegistry == old(onClickRegistry) && widgetRegistry == old(widgetRegistry)
      ensures lastWidgetId == old(lastWidgetId) && issued == old(issued)
    {
      invoked := invoked + Fired(onClickRegistry, id);
    }

    /** The `WidgetNode` constructor: the default `id` argument calls
        `getNextWidgetId`, so the counter moves only when no id is given. */
    method NewWidgetNode(typ: string, props: Props := map[], children: seq<WidgetNode> := [],
                         id: Option<Int32> := None)
      returns (w: WidgetNode)
      requires Valid()
      modifies this
      ensures Valid()
      ensures w.typ == typ && w.props == props && w.children == children
      ensures id.Some? ==> w.id == id.value && lastWidgetId == old(lastWidgetId) && issued == old(issued)
      ensures id.None? ==> w.id == old(lastWidgetId) && issued == old(issued) + [w.id]
      ensures id.None? && |old(issued)| < TwoTo32 ==> w.id !in old(issued)
      ensures widgetRegistry == old(widgetRegistry) && onClickRegistry == old(onClickRegistry)
      ensures invoked == old(invoked)
    {
      var wid: Int32;
      if id.Some? {
        wid := id.value;
      } else {
        wid := GetNextWidgetId();
      }
      w := WidgetNode(typ, props, children, wid);
    }
  }

  /** Why `fromJson` throws: a cast of the "type" or "id" entry failed. */
  datatype JsonError = TypeNotString | IdNotInt

  datatype Result<T> = Ok(value: T) | Err(error: JsonError)

  /** `WidgetNodeAdapter.toJson`: the props with "id" and "type" added on
      top (they override props of the same name); children are not written. */
  function ToJson(w: WidgetNode): (json: Props)
    ensures json.Keys == w.props.Keys + {"id", "type"}
    ensures json["id"] == Int(w.id) && json["type"] == Str(w.typ)
    ensures forall k :: k in w.props && k != "id" && k != "type" ==> json[k] == w.props[k]
  {
    w.props["id" := Int(w.id)]["type" := Str(w.typ)]
  }

  /** `WidgetNodeAdapter.fromJson`: succeeds exactly when "type" is a
      `String` and "id" an `Int`; a bad "type" is reported even when "id" is
      bad too. Every other entry becomes a prop, and the node has no children. */
  function FromJson(json: Props): (r: Result<WidgetNode>)
    ensures r.Ok? <==> Get(json, "type").Str? && Get(json, "id").Int?
    ensures !Get(json, "type").Str? ==> r == Err(TypeNotString)
    ensures Get(json, "type").Str? && !Get(json, "id").Int? ==> r == Err(IdNotInt)
    ensures r.Ok? ==>
      && r.value.typ == Get(json, "type").s && r.value.id == Get(json, "id").i
      && r.value.children == [] && "id" !in r.value.props && "type" !in r.value.props
      && forall k :: k in json && k != "id" && k != "type" ==> k in r.value.props && r.value.props[k] == json[k]
  {
    match Get(json, "type")
    case Str(t) =>
      (match Get(json, "id")
       case Int(i) => Ok(WidgetNode(t, json - {"id", "type"}, [], i))
       case _ => Err(IdNotInt))
    case _ => Err(TypeNotString)
  }

  /** Reading back what `toJson` wrote gives the node without its children
      and without props named "id" or "type", which the header overwrote. */
  lemma JsonRoundTrip(w: WidgetNode)
    ensures FromJson(ToJson(w)) == Ok(WidgetNode(w.typ, w.props - {"id", "type"}, [], w.id))
  {
    var json := ToJson(w);
    assert json - {"id", "type"} == w.props - {"id", "type"};
  }

  /** So a childless node whose props avoid the two header keys survives the
      round trip unchanged. */
  lemma JsonRoundTripExact(w: WidgetNode)
    requires w.children == [] && "id" !in w.props && "type" !in w.props
    ensures FromJson(ToJson(w)) == Ok(w)
  {
    JsonRoundTrip(w);
    assert w.props - {"id", "type"} == w.props;
  }

  /** Conversely, writing back a node that `fromJson` accepted gives the
      same JSON object. */
  lemma JsonRoundTripFromJson(json: Props)
    requires FromJson(json).Ok?
    ensures ToJson(FromJson(json).value) == json
  {
    var w := FromJson(json).value;
    assert ToJson(w) == json;
  }
}
