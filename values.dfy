// Shared value types of the Kotlin core: 32-bit integers, the closed union
// that stands for the `Any?` values of a props map, and opaque callback tokens.

module Values {

  /** Kotlin's `Int`: a signed 32-bit integer. */
  const MinInt32: int := -0x8000_0000
  const MaxInt32: int := 0x7fff_ffff
  type Int32 = x: int | MinInt32 <= x <= MaxInt32

  /** Two's-complement wrap-around of Kotlin `Int` arithmetic. */
  function Wrap32(x: int): (r: Int32)
    ensures MinInt32 <= x <= MaxInt32 ==> r == x
    ensures (r - x) % 0x1_0000_0000 == 0
  {
    (x - MinInt32) % 0x1_0000_0000 + MinInt32
  }

  datatype Option<+T> = None | Some(value: T)

  /** A prop value: `null`, a boolean, an `Int`, a `String` or a nested map. */
  datatype Value =
    | Null
    | Bool(b: bool)
    | Int(i: Int32)
    | Str(s: string)
    | Nested(entries: map<string, Value>)

  /** `Map<String, Any?>` */
  type Props = map<string, Value>

  /** Kotlin's `m[k]`: an absent key reads as `null`. */
  function Get(m: Props, k: string): Value
  {
    if k in m then m[k] else Null
  }

  /** A zero-argument callback `() -> Unit`, known only by its identity. */
  datatype Handler = Handler(token: nat)

  /** `MutableMap<Int, () -> Unit>`: callbacks keyed by a component or widget id. */
  type CallbackTable = map<Int32, Handler>

  /** `table[id]?.invoke()`: the callbacks one dispatch runs. An id without an
      entry runs nothing and is not an error. */
  function Fired(table: CallbackTable, id: Int32): (r: seq<Handler>)
    ensures |r| <= 1
    ensures r != [] <==> id in table
  {
    if id in table then [table[id]] else []
  }

  /** Registering under an id replaces whatever was registered there before,
      and leaves every other id's callback as it was. */
  lemma FiredAfterRegister(table: CallbackTable, id: Int32, h: Handler, other: Int32)
    ensures Fired(table[id := h], id) == [h]
    ensures other != id ==> Fired(table[id := h], other) == Fired(table, other)
  {
  }
}
