/** `GenericValue` as a value.  Member names are values too: the caller can
    change them through an iterator. */
module JsonValue {
  import opened JsonNumber

  /** How a string is stored; `CopyFlag` is set for the last two. */
  datatype Storage = ConstString | CopyString | ShortString

  datatype Value =
    | Null
    | False
    | True
    | Object(members: seq<Member>)
    | Array(elements: seq<Value>)
    | String(chars: string, storage: Storage)
    | Num(number: Number)

  datatype Member = Member(name: Value, value: Value)

  /** `ShortString::MaxSize` with 48-bit pointers: a value has sixteen bytes, of
      which the flags take two and the length takes one. */
  const VALUE_BYTES := 16
  const FLAG_BYTES := 2
  const MAX_SHORT := VALUE_BYTES - FLAG_BYTES - 1

  /** `SetStringRaw` with and without an allocator. */
  function MakeString(chars: string, copy: bool): Value {
    String(chars, if !copy then ConstString else if |chars| <= MAX_SHORT then ShortString else CopyString)
  }

  /** Every member name, at every level, is a string. */
  ghost predicate Named(v: Value) {
    match v
    case Object(ms) => forall i :: 0 <= i < |ms| ==> ms[i].name.String? && Named(ms[i].value)
    case Array(es) => forall i :: 0 <= i < |es| ==> Named(es[i])
    case _ => true
  }
}
