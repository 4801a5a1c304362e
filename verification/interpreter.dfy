/** The `Interpreter` class of interpreter.h/.cpp: `eval` dispatches on the
 *  node kind to eight `eval*` methods that read and write the `variables`
 *  map; `evalBlock` and `evalWhileStmt` loop, keeping the value of the last
 *  statement or pass.  The values `print` writes to the console are kept in
 *  `output`.  Each method is proved to do what Semantics says. */
module TreeWalker {
  import opened Base
  import opened MachineInt
  import opened Ast
  import opened Values
  import opened Semantics

  /** `r` and `st` are what the outcome `o` describes. */
  predicate Reports(r: Result<Value>, st: State, o: Outcome) {
    st == o.st && (if o.Done? then r == Ok(o.value) else r == Err(o.error))
  }

  class Interpreter {
    var variables: map<string, Value>
    var output: seq<int32>
    /** The most passes any one loop may make. */
    const fuel: nat

    function Current(): State
      reads this
    {
      State(variables, output)
    }

    /** A fresh interpreter has no variables. */
    constructor(fuel: nat)
      ensures Current() == Initial && this.fuel == fuel
    {
      variables := map[];
      output := [];
      this.fuel := fuel;
    }

    method Eval(p: Ptr) returns (r: Result<Value>)
      modifies this
      ensures Reports(r, Current(), Semantics.Eval(p, old(Current()), fuel))
      decreases p, 1
    {
      if p.None? {
        return Err(UnknownNode);
      }
      match p.value
      case BinaryExpr(op, l, rt) => r := EvalBinaryExpr(op, l, rt);
      case Literal(v) => r := EvalLiteral(v);
      case Identifier(x) => r := EvalIdentifier(x);
      case Assignment(x, e) => r := EvalAssignment(x, e);
      case IfStmt(c, t, e) => r := EvalIfStmt(c, t, e);
      case Block(ss) => r := EvalBlock(ss);
      case WhileStmt(c, b) => r := EvalWhileStmt(c, b);
      case PrintStmt(e) => r := EvalPrintStmt(e);
    }

    method EvalBinaryExpr(op: string, left: Ptr, right: Ptr) returns (r: Result<Value>)
      modifies this
      ensures Reports(r, Current(), Semantics.Eval(Some(BinaryExpr(op, left, right)), old(Current()), fuel))
      decreases Some(BinaryExpr(op, left, right)), 0
    {
      var a :- Eval(left);
      var b :- Eval(right);
      r := BinaryOp(op, a, b);
    }

    method EvalLiteral(v: int32) returns (r: Result<Value>)
      ensures r == Ok(IntVal(v))
    {
      return Ok(IntVal(v));
    }

    method EvalIdentifier(name: string) returns (r: Result<Value>)
      ensures r.Ok? <==> name in variables
      ensures r.Ok? ==> r.value == variables[name]
      ensures r.Err? ==> r.error == UndefinedVariable(name)
    {
      if name !in variables {
        return Err(UndefinedVariable(name));
      }
      return Ok(variables[name]);
    }

    method EvalAssignment(name: string, e: Ptr) returns (r: Result<Value>)
      modifies this
      ensures Reports(r, Current(), Semantics.Eval(Some(Assignment(name, e)), old(Current()), fuel))
      decreases Some(Assignment(name, e)), 0
    {
      var v :- Eval(e);
      variables := variables[name := v];
      var _ :- AsInt(v);
      return Ok(v);
    }

    method EvalIfStmt(c: Ptr, t: Ptr, e: Ptr) returns (r: Result<Value>)
      modifies this
      ensures Reports(r, Current(), Semantics.Eval(Some(IfStmt(c, t, e)), old(Current()), fuel))
      decreases Some(IfStmt(c, t, e)), 0
    {
      var cond :- Eval(c);
      var b :- AsBool(cond);
      if b {
        r := Eval(t);
        return;
      }
      if e.Some? {
        r := Eval(e);
        return;
      }
      return Ok(IntVal(0));
    }

    method EvalBlock(ss: seq<Ptr>) returns (r: Result<Value>)
      modifies this
      ensures Reports(r, Current(), Semantics.Eval(Some(Block(ss)), old(Current()), fuel))
      decreases Some(Block(ss)), 0
    {
      var last := DefaultValue;
      var i := 0;
      while i < |ss|
        invariant 0 <= i <= |ss|
        invariant EvalStatements(ss[i..], Current(), last, fuel) == EvalStatements(ss, old(Current()), DefaultValue, fuel)
      {
        assert ss[i..][1..] == ss[i + 1..];
        last :- Eval(ss[i]);
        if !AllInts(variables) {
          return Err(TypeMismatch);
        }
        i := i + 1;
      }
      return Ok(last);
    }

    method EvalWhileStmt(c: Ptr, body: Ptr) returns (r: Result<Value>)
      modifies this
      ensures Reports(r, Current(), Semantics.Eval(Some(WhileStmt(c, body)), old(Current()), fuel))
      decreases Some(WhileStmt(c, body)), 0
    {
      var last := DefaultValue;
      var left := fuel;
      while true
        invariant Loop(c, body, Current(), last, fuel, left) == Loop(c, body, old(Current()), DefaultValue, fuel, fuel)
        decreases left
      {
        var cond :- Eval(c);
        var go :- AsBool(cond);
        if !go {
          return Ok(last);
        }
        if left == 0 {
          return Err(OutOfFuel);
        }
        last :- Eval(body);
        if !AllInts(variables) {
          return Err(TypeMismatch);
        }
        left := left - 1;
      }
    }

    method EvalPrintStmt(e: Ptr) returns (r: Result<Value>)
      modifies this
      ensures Reports(r, Current(), Semantics.Eval(Some(PrintStmt(e)), old(Current()), fuel))
      decreases Some(PrintStmt(e)), 0
    {
      var v :- Eval(e);
      var i :- AsInt(v);
      output := output + [i];
      return Ok(v);
    }
  }
}
