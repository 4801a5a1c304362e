/** The meaning of `Interpreter::eval` (interpreter.cpp) as functions of the
 *  interpreter's state: one flat map from names to values, plus the values
 *  that `print` has emitted.  A C++ exception leaves behind whatever the
 *  interpreter had already changed, so a failure carries a state too. */
module Semantics {
  import opened Base
  import opened MachineInt
  import opened Ast
  import opened Values

  /** The variables of an interpreter and the program output so far. */
  datatype State = State(vars: map<string, Value>, out: seq<int32>)

  /** A fresh interpreter: no variables, nothing printed. */
  const Initial: State := State(map[], [])

  /** The value of an evaluation, or the exception that ended it; either way
   *  the state it left. */
  datatype Outcome = Done(value: Value, st: State) | Failed(error: Error, st: State)

  /** `s1` can follow `s0`: output is only appended to, and a variable once
   *  bound stays bound. */
  predicate Extends(s0: State, s1: State) {
    s0.out <= s1.out && s0.vars.Keys <= s1.vars.Keys
  }

  /** The check after every statement of a block and every pass of a loop:
   *  each variable is projected to `int`, so one bool variable throws. */
  predicate AllInts(vars: map<string, Value>) {
    forall x | x in vars :: vars[x].IntVal?
  }

  /** The operator step of `evalBinaryExpr`: `+ - * /` on two ints yield an
   *  int, `== < >` on two ints yield a bool, and any other operator fails
   *  before its operands are projected. */
  function BinaryOp(op: string, a: Value, b: Value): (r: Result<Value>)
    ensures op !in ArithOps && op !in {"==", "<", ">"} ==> r == Err(UnknownOperator(op))
    ensures (op in ArithOps || op in {"==", "<", ">"}) && (a.BoolVal? || b.BoolVal?) ==> r == Err(TypeMismatch)
    ensures op in ArithOps && a.IntVal? && b.IntVal? ==>
      (r == Err(DivisionByZero) <==> op == "/" && b.i == 0)
    ensures r.Ok? && op in ArithOps ==>
      a.IntVal? && b.IntVal? && !(op == "/" && b.i == 0) && r.value.IntVal? &&
      r.value.i as int == Exact(ArithOpOf(op).value, a.i as int, b.i as int)
    ensures r.Ok? && op == "==" ==> a.IntVal? && b.IntVal? && r.value == BoolVal(a.i == b.i)
    ensures r.Ok? && op == "<" ==> a.IntVal? && b.IntVal? && r.value == BoolVal(a.i < b.i)
    ensures r.Ok? && op == ">" ==> a.IntVal? && b.IntVal? && r.value == BoolVal(a.i > b.i)
  {
    if op in ArithOps || op in {"==", "<", ">"} then
      match AsInt(a)
      case Err(e) => Err(e)
      case Ok(x) =>
        match AsInt(b)
        case Err(e) => Err(e)
        case Ok(y) =>
          if op == "==" then Ok(BoolVal(x == y))
          else if op == "<" then Ok(BoolVal(x < y))
          else if op == ">" then Ok(BoolVal(x > y))
          else
            match Apply(ArithOpOf(op).value, x, y)
            case Err(e) => Err(e)
            case Ok(v) => Ok(IntVal(v))
    else Err(UnknownOperator(op))
  }

  /** `eval`: every loop may repeat its body at most `fuel` times; one more
   *  pass fails with OutOfFuel. */
  function Eval(p: Ptr, st: State, fuel: nat): (o: Outcome)
    ensures Extends(st, o.st)
    decreases p, 1, 0
  {
    match p
    case None => Failed(UnknownNode, st)
    case Some(n) =>
      match n
      case BinaryExpr(op, l, r) => EvalBinary(op, l, r, st, fuel)
      case Literal(v) => Done(IntVal(v), st)
      case Identifier(x) =>
        if x in st.vars then Done(st.vars[x], st) else Failed(UndefinedVariable(x), st)
      case Assignment(x, e) =>
        (match Eval(e, st, fuel)
         case Failed(err, s) => Failed(err, s)
         case Done(v, s) =>
           var s' := s.(vars := s.vars[x := v]);
           if v.IntVal? then Done(v, s') else Failed(TypeMismatch, s'))
      case IfStmt(c, t, e) => EvalIf(c, t, e, st, fuel)
      case Block(ss) => EvalStatements(ss, st, DefaultValue, fuel)
      case WhileStmt(c, b) => Loop(c, b, st, DefaultValue, fuel, fuel)
      case PrintStmt(e) =>
        match Eval(e, st, fuel)
        case Failed(err, s) => Failed(err, s)
        case Done(v, s) =>
          match v
          case IntVal(i) => Done(v, s.(out := s.out + [i]))
          case BoolVal(_) => Failed(TypeMismatch, s)
  }

  /** `evalBinaryExpr`: the left operand, then the right, then the operator. */
  function EvalBinary(op: string, l: Ptr, r: Ptr, st: State, fuel: nat): (o: Outcome)
    ensures Extends(st, o.st)
    decreases Some(BinaryExpr(op, l, r)), 0, 0
  {
    match Eval(l, st, fuel)
    case Failed(e, s) => Failed(e, s)
    case Done(a, s1) =>
      match Eval(r, s1, fuel)
      case Failed(e, s) => Failed(e, s)
      case Done(b, s2) =>
        match BinaryOp(op, a, b)
        case Err(e) => Failed(e, s2)
        case Ok(v) => Done(v, s2)
  }

  /** `evalIfStmt`: the condition must be a bool; false with no else yields
   *  the int 0. */
  function EvalIf(c: Ptr, t: Ptr, e: Ptr, st: State, fuel: nat): (o: Outcome)
    ensures Extends(st, o.st)
    decreases Some(IfStmt(c, t, e)), 0, 0
  {
    match Eval(c, st, fuel)
    case Failed(err, s) => Failed(err, s)
    case Done(v, s) =>
      match v
      case IntVal(_) => Failed(TypeMismatch, s)
      case BoolVal(b) =>
        if b then Eval(t, s, fuel)
        else if e.Some? then Eval(e, s, fuel)
        else Done(IntVal(0), s)
  }

  /** The loop of `evalBlock`, from statement `ss[0]` on, `last` being the
   *  value of the statement before. */
  function EvalStatements(ss: seq<Ptr>, st: State, last: Value, fuel: nat): (o: Outcome)
    ensures Extends(st, o.st)
    decreases ss, 0, 0
  {
    if ss == [] then Done(last, st)
    else
      match Eval(ss[0], st, fuel)
      case Failed(e, s) => Failed(e, s)
      case Done(v, s) =>
        if AllInts(s.vars) then EvalStatements(ss[1..], s, v, fuel) else Failed(TypeMismatch, s)
  }

  /** The loop of `evalWhileStmt` with `left` passes still allowed, `last`
   *  being the value of the previous pass. */
  function Loop(c: Ptr, b: Ptr, st: State, last: Value, fuel: nat, left: nat): (o: Outcome)
    ensures Extends(st, o.st)
    decreases Some(WhileStmt(c, b)), 0, left
  {
    match Eval(c, st, fuel)
    case Failed(err, s) => Failed(err, s)
    case Done(v, s) =>
      match v
      case IntVal(_) => Failed(TypeMismatch, s)
      case BoolVal(go) =>
        if !go then Done(last, s)
        else if left == 0 then Failed(OutOfFuel, s)
        else
          match Eval(b, s, fuel)
          case Failed(err, s2) => Failed(err, s2)
          case Done(v2, s2) =>
            if AllInts(s2.vars) then Loop(c, b, s2, v2, fuel, left - 1) else Failed(TypeMismatch, s2)
  }
}
