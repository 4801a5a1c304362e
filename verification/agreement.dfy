/** The two back ends on expressions: where `Interpreter::eval`
 *  (interpreter.cpp:8-42) gives an expression a value, the code
 *  `compileAST` emits for it (ir.h:196-211) pushes the same number, a bool
 *  as the 1 or 0 that GT, LT and EQ push (ir.h:142-156).  The converse
 *  fails: the machine has no types and reads an unset variable as 0. */
module Agreement {
  import opened Base
  import opened MachineInt
  import opened Ast
  import opened Values
  import opened Semantics
  import opened Ir
  import opened Compiler
  import opened Vm
  import opened VmProperties

  /** A value as the machine holds it. */
  function Encode(v: Value): int32 {
    match v
    case IntVal(i) => i
    case BoolVal(b) => if b then 1 else 0
  }

  /** Every variable of the interpreter is in the machine, encoded. */
  predicate Mirrors(vars: map<string, Value>, machine: map<string, int32>) {
    forall x | x in vars :: x in machine && machine[x] == Encode(vars[x])
  }

  /** An operator the interpreter applies without failing is the opcode
   *  the compiler emits for it, on the encoded operands. */
  lemma OperatorAgrees(op: string, a: Value, b: Value)
    requires |OperatorCode(op)| == 1 && BinaryOp(op, a, b).Ok?
    ensures Combine(OperatorCode(op)[0].op, Encode(a), Encode(b)) == Ok(Encode(BinaryOp(op, a, b).value))
  {
    var r := BinaryOp(op, a, b).value;
    if op in ArithOps {
      var c := Combine(OperatorCode(op)[0].op, a.i, b.i);
      assert c == Apply(ArithOpOf(op).value, a.i, b.i);
    }
  }

  /** Evaluating a compilable expression leaves the interpreter's state as
   *  it was, and a value it yields is the one the compiled code computes
   *  over a machine that mirrors the interpreter's variables. */
  lemma {:induction false} EvaluationAgrees(p: Ptr, st: State, fuel: nat, machine: map<string, int32>)
    requires Compilable(p) && Mirrors(st.vars, machine)
    ensures Eval(p, st, fuel).st == st
    ensures Eval(p, st, fuel).Done? ==> VmValue(p, machine) == Ok(Encode(Eval(p, st, fuel).value))
    decreases p
  {
    match p.value
    case Literal(_) =>
    case Identifier(_) =>
    case BinaryExpr(op, l, r) =>
      EvaluationAgrees(l, st, fuel, machine);
      EvaluationAgrees(r, st, fuel, machine);
      var o := Eval(l, st, fuel);
      if o.Done? && Eval(r, st, fuel).Done? && BinaryOp(op, o.value, Eval(r, st, fuel).value).Ok? {
        OperatorAgrees(op, o.value, Eval(r, st, fuel).value);
      }
  }

  /** The compiled code of an expression the interpreter evaluates, placed
   *  in a program where `ip` points at its first instruction, runs one
   *  instruction per step to the state just past it, with the interpreter's
   *  value, encoded, pushed on the stack and nothing else of it changed but
   *  the variables it read. */
  lemma CompiledExpressionAgrees(p: Ptr, st: State, fuel: nat, lc: nat, prog: seq<IRInstr>, labels: map<string, nat>, m: Machine, steps: nat)
    requires Compilable(p) && Mirrors(st.vars, m.vars)
    requires Eval(p, st, fuel).Done?
    requires m.ip + |Compile(p, lc).code| <= |prog|
    requires prog[m.ip..m.ip + |Compile(p, lc).code|] == Compile(p, lc).code
    ensures var code := Compile(p, lc).code;
      var v := Encode(Eval(p, st, fuel).value);
      Exec(prog, labels, m, steps + |code|) ==
        Exec(prog, labels, Machine(m.ip + |code|, m.stack + [v], Loaded(p, m.vars), m.out), steps)
  {
    EvaluationAgrees(p, st, fuel, m.vars);
    CompiledCodeRuns(p, lc, prog, labels, m, steps, Encode(Eval(p, st, fuel).value));
  }

  /** The compiled code placed at `ip`, for an expression of value `v`. */
  lemma CompiledCodeRuns(p: Ptr, lc: nat, prog: seq<IRInstr>, labels: map<string, nat>, m: Machine, steps: nat, v: int32)
    requires Compilable(p) && VmValue(p, m.vars) == Ok(v)
    requires m.ip + |Compile(p, lc).code| <= |prog|
    requires prog[m.ip..m.ip + |Compile(p, lc).code|] == Compile(p, lc).code
    ensures var code := Compile(p, lc).code;
      Exec(prog, labels, m, steps + |code|) ==
        Exec(prog, labels, Machine(m.ip + |code|, m.stack + [v], Loaded(p, m.vars), m.out), steps)
  {
    CompiledExpression(p, lc);
    var code := Compile(p, lc).code;
    assert code == ExprCode(p);
    ExpressionCodeRuns(p, prog, labels, m, steps, v);
  }

  lemma ExpressionCodeRuns(p: Ptr, prog: seq<IRInstr>, labels: map<string, nat>, m: Machine, steps: nat, v: int32)
    requires Compilable(p) && VmValue(p, m.vars) == Ok(v)
    requires m.ip + |ExprCode(p)| <= |prog| && prog[m.ip..m.ip + |ExprCode(p)|] == ExprCode(p)
    ensures Exec(prog, labels, m, steps + |ExprCode(p)|) ==
      Exec(prog, labels, Machine(m.ip + |ExprCode(p)|, m.stack + [v], Loaded(p, m.vars), m.out), steps)
  {
    ExpressionCodeHasNoJumps(p);
    StraightInProgram(prog, ExprCode(p), labels, m, steps);
    ExprCodePushes(p, labels, m);
    PushedOfValue(p, m, Ok(v));
  }

  /** `(1 < 2) + 1`: the interpreter refuses to add a bool, the compiled
   *  code adds the 1 that LT pushed. */
  lemma MachineIgnoresTypes(st: State, fuel: nat, machine: map<string, int32>)
    ensures var p := Some(BinaryExpr("+", Some(BinaryExpr("<", Some(Literal(1)), Some(Literal(2)))), Some(Literal(1))));
      Compilable(p) && Eval(p, st, fuel) == Failed(TypeMismatch, st) && VmValue(p, machine) == Ok(2)
  {
    var less := Some(BinaryExpr("<", Some(Literal(1)), Some(Literal(2))));
    assert Eval(less, st, fuel) == Done(BoolVal(true), st);
    assert VmValue(less, machine) == Ok(1);
    assert Apply(Add, 1, 1) == Ok(2);
  }

  /** An unset variable: the interpreter fails, the machine reads 0. */
  lemma MachineReadsUnsetAsZero(x: string, st: State, fuel: nat, machine: map<string, int32>)
    requires x !in st.vars && x !in machine
    ensures Eval(Some(Identifier(x)), st, fuel) == Failed(UndefinedVariable(x), st)
    ensures VmValue(Some(Identifier(x)), machine) == Ok(0)
  {
  }
}
