/**
 * The decoded JSON value that the validator inspects. Go decodes an event into
 * `map[string]interface{}`; each value is a string, a float64, a bool, a slice,
 * a nested map or nil. The constructor tag stands in for the reflected type name.
 */
module Json {

  datatype Value =
    | Str(s: string)
    | Num(n: real)
    | Bool(b: bool)
    | Arr(items: seq<Value>)
    | Obj(fields: map<string, Value>)
    | Null

  /** A canonical event document: attribute name to decoded value. */
  type Document = map<string, Value>

  /**
   * The name `reflect.TypeOf(x).String()` gives for a decoded value. Go has no
   * type for nil (calling String on it panics), hence the precondition.
   */
  function TypeName(x: Value): (t: string)
    requires !x.Null?
    ensures t == "string" <==> x.Str?
    ensures t == "map[string]interface {}" <==> x.Obj?
  {
    match x
    case Str(_) => "string"
    case Num(_) => "float64"
    case Bool(_) => "bool"
    case Arr(_) => "[]interface {}"
    case Obj(_) => "map[string]interface {}"
  }
}
