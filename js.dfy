/** The JavaScript values the request configuration holds, and the few
    object operations the library performs on them: reading a key that may
    be absent, `||`, `Object.assign` and lodash's `pick`. */
module Js {
  import opened Wrappers

  /** A value; functions are known only by an identity, numbers are
      integers (NaN and fractions are not modelled). */
  datatype Value =
    | Undefined
    | Null
    | Bool(b: bool)
    | Number(n: int)
    | Str(s: string)
    | Function(id: nat)
    | Object(fields: map<string, Value>)

  type Fields = map<string, Value>

  /** The names every plain `{}` inherits from `Object.prototype`: `key in {}`
      holds for each of them, and reading one from a `{}` gives a function
      (or, for `__proto__`, the prototype object itself), never `undefined`. */
  const ObjectPrototypeNames: set<string> := {
    "constructor", "__defineGetter__", "__defineSetter__", "hasOwnProperty",
    "__lookupGetter__", "__lookupSetter__", "isPrototypeOf",
    "propertyIsEnumerable", "toString", "valueOf", "__proto__", "toLocaleString"
  }

  /** The one inherited name that is an accessor: assigning to it on a `{}`
      replaces the prototype (or, for a value that is not an object, does
      nothing) and never adds a key of that name. */
  const ProtoKey: string := "__proto__"

  /** `!!v` */
  predicate Truthy(v: Value) {
    match v
    case Undefined => false
    case Null => false
    case Bool(b) => b
    case Number(n) => n != 0
    case Str(s) => s != ""
    case _ => true
  }

  /** `o[key]`: an absent key reads as undefined. */
  function Get(o: Fields, key: string): Value {
    if key in o then o[key] else Undefined
  }

  /** `a || b` */
  function Or(a: Value, b: Value): (r: Value)
    ensures Truthy(r) <==> Truthy(a) || Truthy(b)
    ensures Truthy(a) ==> r == a
  {
    if Truthy(a) then a else b
  }

  /** A string value's text; anything else has none. */
  function TextOf(v: Value): Option<string> {
    if v.Str? then Some(v.s) else None
  }

  /** The own enumerable fields `Object.assign` copies from a source: an
      object's fields, and nothing from undefined, null or a function. */
  function OwnFields(v: Value): Fields {
    if v.Object? then v.fields else map[]
  }

  /** `Object.assign(target, source)` and `{...target, ...source}`: every
      field of the source is written over the target's. */
  function Assign(target: Fields, source: Fields): (r: Fields)
    ensures r.Keys == target.Keys + source.Keys
    ensures forall k :: k in source ==> r[k] == source[k]
    ensures forall k :: k in target && k !in source ==> r[k] == target[k]
  {
    target + source
  }

  /** lodash `pick(o, keys)`: the fields of `o` named in `keys`, present
      ones only (an undefined value that is present is kept). */
  function Pick(o: Fields, keys: set<string>): (r: Fields)
    ensures r.Keys == o.Keys * keys
    ensures forall k :: k in r ==> r[k] == o[k]
  {
    map k | k in o && k in keys :: o[k]
  }
}
