/**
 * The editor's value type, indentation modes and tree-node props (types.ts).
 */
module Types {
  import opened Wrappers

  /** A parsed document: exactly one of six variants (types.ts:1-7). Objects list
      their members in the order `Object.entries` enumerates them. */
  datatype JsonValue =
    | JString(str: string)
    | JNumber(num: real)
    | JBool(b: bool)
    | JNull
    | JArray(items: seq<JsonValue>)
    | JObject(members: seq<Member>)

  /** One own property of an object: its key and its value. */
  datatype Member = Member(key: string, value: JsonValue)

  /** The three indentation modes '2', '4' and 'tab' (types.ts:15). */
  datatype IndentMode = Two | Four | Tab

  /** A path addresses a node by object keys and array indices, both as strings (types.ts:23). */
  type Path = seq<string>

  /** The props every tree node receives (types.ts:17-25). The `onUpdate` callback is not
      a field: a node hands its update back to the caller as a result instead. */
  datatype TreeNodeProps = TreeNodeProps(
    keyName: Option<string>,
    value: JsonValue,
    isLast: bool,
    depth: nat,
    path: Path,
    expanded: Option<bool>)

  /** The largest length a JavaScript array can have, 2^32 - 1. */
  const MaxArrayLength: nat := 0xFFFF_FFFF

  predicate IsContainer(v: JsonValue) {
    v.JArray? || v.JObject?
  }

  /** Number of immediate children, the length of `Object.keys(value)`. */
  function EntryCount(v: JsonValue): nat {
    match v
    case JArray(items) => |items|
    case JObject(members) => |members|
    case _ => 0
  }

  /** Every number in `v` satisfies `ok`: the platform holds only some reals exactly. */
  predicate NumbersIn(v: JsonValue, ok: real -> bool) {
    match v
    case JNumber(n) => ok(n)
    case JArray(items) => forall i :: 0 <= i < |items| ==> NumbersIn(items[i], ok)
    case JObject(members) => forall i :: 0 <= i < |members| ==> NumbersIn(members[i].value, ok)
    case _ => true
  }
}
