/** The run-time value of interpreter.h: a variant holding either an `int`
 *  or a `bool`, with two projections that throw on the other alternative. */
module Values {
  import opened Base
  import opened MachineInt

  datatype Value = IntVal(i: int32) | BoolVal(b: bool)

  /** A default-constructed Value holds the first alternative, the int 0. */
  const DefaultValue: Value := IntVal(0)

  /** `Value::asInt`: defined exactly on int-tagged values. */
  function AsInt(v: Value): (r: Result<int32>)
    ensures r.Ok? <==> v.IntVal?
    ensures r.Ok? ==> v == IntVal(r.value)
    ensures r.Err? ==> r.error == TypeMismatch
  {
    match v
    case IntVal(i) => Ok(i)
    case BoolVal(_) => Err(TypeMismatch)
  }

  /** `Value::asBool`: defined exactly on bool-tagged values. */
  function AsBool(v: Value): (r: Result<bool>)
    ensures r.Ok? <==> v.BoolVal?
    ensures r.Ok? ==> v == BoolVal(r.value)
    ensures r.Err? ==> r.error == TypeMismatch
  {
    match v
    case BoolVal(b) => Ok(b)
    case IntVal(_) => Err(TypeMismatch)
  }
}
