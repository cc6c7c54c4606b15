/**
 * JSON values as the agent handles them after parsing: keys are strings, a dict is a map, and a
 * number is the real number it denotes.
 */
module Json {

  datatype Json =
    | Null
    | Bool(b: bool)
    | Num(n: real)
    | Str(s: string)
    | Arr(items: seq<Json>)
    | Obj(fields: map<string, Json>)

  /** dict.get: a missing key reads as null. */
  function Get(v: Json, key: string): (r: Json)
    ensures v.Obj? && key in v.fields ==> r == v.fields[key] && r < v
  {
    if v.Obj? && key in v.fields then v.fields[key] else Null
  }

  /** Python's truth value. */
  predicate Truthy(v: Json) {
    match v
    case Null => false
    case Bool(b) => b
    case Num(n) => n != 0.0
    case Str(s) => s != ""
    case Arr(items) => items != []
    case Obj(fields) => fields != map[]
  }

  /**
   * The value up to Python's equality: True equals 1 and False equals 0, everywhere inside.
   */
  function Plain(v: Json): Json {
    match v
    case Bool(b) => Num(if b then 1.0 else 0.0)
    case Arr(items) => Arr(seq(|items|, i requires 0 <= i < |items| => Plain(items[i])))
    case Obj(fields) => Obj(map k | k in fields :: Plain(fields[k]))
    case _ => v
  }

  /** Python's == on parsed JSON. */
  predicate PyEqual(a: Json, b: Json) {
    Plain(a) == Plain(b)
  }

  /** Python's x or y. */
  function Or(x: Json, y: Json): Json {
    if Truthy(x) then x else y
  }

  /** str(): strings stay as they are; repr stands for the text of all other values. */
  function TextOf(repr: Json -> string, v: Json): string {
    if v.Str? then v.s else repr(v)
  }

  /** The text of a value, or a default for a falsy one. */
  function TextOr(repr: Json -> string, v: Json, otherwise: string): string {
    if Truthy(v) then TextOf(repr, v) else otherwise
  }
}
