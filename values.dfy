/**
 * Untyped, JSON-like values as Go sees them behind `any`: what a decoded
 * response body, or `viper.Get`, hands to the code of this model.
 */
module Values {

  /** The dynamic type of a `Value`, i.e. what `reflect.TypeOf` distinguishes. */
  datatype Kind = StringKind | Float64Kind | IntKind | TimeKind | SliceKind | BoolKind | NilKind | MapKind

  /**
   * A Go value of one of the dynamic types the code of this model meets.
   * Num is a `float64` (modelled as a real, without NaN, infinities or signed zero),
   * Int is a Go `int` (as YAML configuration yields), Time is a `time.Time`
   * reduced to its instant, Arr is a `[]any`, Obj is a `map[string]any` and
   * Nil is the untyped `nil`.
   */
  datatype Value =
    | Str(s: string)
    | Num(n: real)
    | Int(i: int)
    | Time(instant: int)
    | Arr(items: seq<Value>)
    | Bool(b: bool)
    | Nil
    | Obj(fields: map<string, Value>)

  function KindOf(v: Value): (k: Kind)
    ensures k == SliceKind <==> v.Arr?
    ensures k == NilKind <==> v.Nil?
    ensures k == MapKind <==> v.Obj?
  {
    match v
    case Str(_) => StringKind
    case Num(_) => Float64Kind
    case Int(_) => IntKind
    case Time(_) => TimeKind
    case Arr(_) => SliceKind
    case Bool(_) => BoolKind
    case Nil => NilKind
    case Obj(_) => MapKind
  }

  /**
   * What Go's `%T` verb prints for a value of this dynamic type: never
   * empty; only a slice type starts with `[`, and only `nil` with `<`.
   */
  function TypeName(v: Value): (r: string)
    ensures |r| > 0
    ensures r[0] == '[' <==> v.Arr?
    ensures r[0] == '<' <==> v.Nil?
  {
    match v
    case Str(_) => "string"
    case Num(_) => "float64"
    case Int(_) => "int"
    case Time(_) => "time.Time"
    case Arr(_) => "[]interface {}"
    case Bool(_) => "bool"
    case Nil => "<nil>"
    case Obj(_) => "map[string]interface {}"
  }

  /** Two dynamic types print alike under `%T` exactly when they are the same type. */
  lemma TypeNameDistinguishesKinds(a: Value, b: Value)
    ensures TypeName(a) == TypeName(b) <==> KindOf(a) == KindOf(b)
  {
  }

  /** Go's `m[k]` on a `map[string]any`: a missing key reads as `nil`. */
  function Lookup(m: map<string, Value>, k: string): (r: Value)
    ensures k !in m ==> r.Nil?
    ensures k in m ==> r == m[k]
  {
    if k in m then m[k] else Nil
  }
}
