/** Values shared by the click-curation UI and the recorder: the JSON-like
    click records the page binding delivers, and the messages the UI sends
    back to the recorder on its result queue. */
module Values {

  /** A JSON value as it arrives from the page. `Array` and `Object` become a
      Python list and dict, which are unhashable; the others are hashable. */
  datatype Value =
    | Null
    | Str(s: string)
    | Int(i: int)
    | Array(elems: seq<Value>)
    | Object(fields: map<string, Value>)

  /** One click record: a dictionary from attribute names to values. */
  type Item = map<string, Value>

  datatype Option<T> = None | Some(value: T)

  /** `item.get(key)`: a missing key reads as `None`. */
  function Get(item: Item, key: string): Value
  {
    if key in item then item[key] else Null
  }

  /** Python truthiness of a value. */
  predicate Truthy(v: Value)
  {
    match v
    case Null => false
    case Str(s) => s != ""
    case Int(i) => i != 0
    case Array(e) => e != []
    case Object(m) => m != map[]
  }

  /** Whether Python can hash the value (lists and dicts cannot be hashed). */
  predicate Hashable(v: Value)
  {
    !v.Array? && !v.Object?
  }

  /** Second component of a result-queue message: the list of chosen clicks,
      or a value that is not a list (the `None` that a shutdown sends). */
  datatype Payload = ItemList(items: seq<Item>) | NonList

  /** A result-queue message `(action, items)`. */
  datatype Message = Message(action: string, payload: Payload)

  const Exit: string := "exit"
}
