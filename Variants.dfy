/** Values exchanged across the proxy boundary, and the error vocabulary.

    `Variant` stands for the runtime's tagged value type. The core reads only
    dictionaries, integers and strings, but compare() tests whole attribute
    maps for equality, so every alternative keeps its value. A C++ exception
    becomes an `Err` carrying the exception's kind and message. */
module Variants {

  datatype Variant =
    | Null                                // default-constructed Variant
    | Int(i: int)
    | Str(s: string)
    | Dict(d: map<string, Variant>)
    | Bool(b: bool)
    | Double(bits: int)                   // the IEEE 754 bit pattern
    | Array(elems: seq<Variant>)

  type VariantMap = map<string, Variant>

  /** The exception classes the core throws. `TypeMismatch` is what a typed
      accessor (get_dict, get_int, get_string) raises on a Variant of another type. */
  datatype Exception =
    | InvalidArgument(msg: string)
    | Logic(msg: string)
    | Config(msg: string)
    | Resource(msg: string)
    | TypeMismatch

  datatype Option<+T> = None | Some(value: T)

  datatype Result<+T> = Ok(value: T) | Err(error: Exception) {
    predicate IsFailure() { Err? }

    function PropagateFailure<U>(): Result<U>
      requires Err?
    {
      Err(error)
    }

    function Extract(): T
      requires Ok?
    {
      value
    }
  }

  /** Variant::get_dict(). */
  function GetDict(v: Variant): (r: Result<VariantMap>)
    ensures r.Ok? <==> v.Dict?
    ensures r.Ok? ==> v == Dict(r.value)
    ensures r.Err? ==> r.error == TypeMismatch
  {
    if v.Dict? then Ok(v.d) else Err(TypeMismatch)
  }

  /** Variant::get_int(). */
  function GetInt(v: Variant): (r: Result<int>)
    ensures r.Ok? <==> v.Int?
    ensures r.Ok? ==> v == Int(r.value)
    ensures r.Err? ==> r.error == TypeMismatch
  {
    if v.Int? then Ok(v.i) else Err(TypeMismatch)
  }

  /** Variant::get_string(). */
  function GetString(v: Variant): (r: Result<string>)
    ensures r.Ok? <==> v.Str?
    ensures r.Ok? ==> v == Str(r.value)
    ensures r.Err? ==> r.error == TypeMismatch
  {
    if v.Str? then Ok(v.s) else Err(TypeMismatch)
  }
}
