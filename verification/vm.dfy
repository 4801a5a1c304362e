/** `IRVM::run` (ir.h:73-186): a pre-pass maps every label to the index of
 *  its LABEL instruction, then a loop executes the instruction at `ip` and
 *  moves to `ip + 1`; a jump first sets `ip` to its label's index, so the
 *  instruction after the LABEL runs next.  The operand stack and the
 *  variables hold C++ `int`s.  What `PRINT` writes to the console is kept
 *  in `out`. */
module Vm {
  import opened Base
  import opened MachineInt
  import opened Ir

  /** The state of a run: program counter, operand stack (top at the end),
   *  variables, and the values printed so far. */
  datatype Machine = Machine(ip: nat, stack: seq<int32>, vars: map<string, int32>, out: seq<int32>)

  /** The state `run` starts from. */
  const Start: Machine := Machine(0, [], map[], [])

  /** The label map after the pre-pass has looked at `prog[..n]`: a later
   *  LABEL of the same name overwrites an earlier one. */
  function LabelsUpTo(prog: seq<IRInstr>, n: nat): (labels: map<string, nat>)
    requires n <= |prog|
  {
    if n == 0 then map[]
    else
      var labels := LabelsUpTo(prog, n - 1);
      if prog[n - 1].op == LABEL then labels[prog[n - 1].arg := n - 1] else labels
  }

  /** The label map of a whole program. */
  function Labels(prog: seq<IRInstr>): map<string, nat> {
    LabelsUpTo(prog, |prog|)
  }

  /** `labels[name]`: a name with no LABEL reads as index 0. */
  function Target(labels: map<string, nat>, name: string): nat {
    if name in labels then labels[name] else 0
  }

  /** `a op b` for a binary opcode; comparisons push 1 or 0. */
  function Combine(op: OpCode, a: int32, b: int32): (r: Result<int32>)
    requires IsBinary(op)
    ensures op == GT ==> r == Ok(if a > b then 1 else 0)
    ensures op == LT ==> r == Ok(if a < b then 1 else 0)
    ensures op == EQ ==> r == Ok(if a == b then 1 else 0)
    ensures op == ADD ==> r == Apply(Add, a, b)
    ensures op == SUB ==> r == Apply(Sub, a, b)
    ensures op == MUL ==> r == Apply(Mul, a, b)
    ensures op == DIV ==> r == Apply(Div, a, b)
  {
    match op
    case ADD => Apply(Add, a, b)
    case SUB => Apply(Sub, a, b)
    case MUL => Apply(Mul, a, b)
    case DIV => Apply(Div, a, b)
    case GT => Ok(if a > b then 1 else 0)
    case LT => Ok(if a < b then 1 else 0)
    case EQ => Ok(if a == b then 1 else 0)
  }

  /** One pass of the loop body of `run`, `ip` advanced at its end.  Popping
   *  an empty stack, which is undefined in C++, is the error StackUnderflow. */
  function Step(instr: IRInstr, labels: map<string, nat>, m: Machine): (r: Result<Machine>)
  {
    match instr.op
    case PUSH => Push(instr.arg, m)
    case LOAD => Load(instr.arg, m)
    case STORE => Store(instr.arg, m)
    case JZ => JumpIfZero(Target(labels, instr.arg), m)
    case JMP => Ok(m.(ip := Target(labels, instr.arg) + 1))
    case LABEL => Ok(m.(ip := m.ip + 1))
    case NOP => Ok(m.(ip := m.ip + 1))
    case PRINT => Print(m)
    case ADD | SUB | MUL | DIV | GT | LT | EQ => Binary(instr.op, m)
  }

  /** PUSH: the argument read as an `int`. */
  function Push(arg: string, m: Machine): Result<Machine> {
    match ToInt(arg)
    case Err(e) => Err(e)
    case Ok(v) => Ok(m.(ip := m.ip + 1, stack := m.stack + [v]))
  }

  /** LOAD: the variable's value, or 0 for a variable with none, which
   *  `operator[]` then binds to 0. */
  function Load(x: string, m: Machine): Result<Machine> {
    var v := if x in m.vars then m.vars[x] else 0;
    Ok(m.(ip := m.ip + 1, stack := m.stack + [v], vars := m.vars[x := v]))
  }

  /** STORE: pop into the variable. */
  function Store(x: string, m: Machine): Result<Machine> {
    if |m.stack| == 0 then Err(StackUnderflow)
    else Ok(m.(ip := m.ip + 1, stack := m.stack[..|m.stack| - 1], vars := m.vars[x := m.stack[|m.stack| - 1]]))
  }

  /** JZ: pop, and go to `target` if the value was 0. */
  function JumpIfZero(target: nat, m: Machine): Result<Machine> {
    if |m.stack| == 0 then Err(StackUnderflow)
    else
      var ip := if m.stack[|m.stack| - 1] == 0 then target else m.ip;
      Ok(m.(ip := ip + 1, stack := m.stack[..|m.stack| - 1]))
  }

  /** PRINT: pop and emit. */
  function Print(m: Machine): Result<Machine> {
    if |m.stack| == 0 then Err(StackUnderflow)
    else Ok(m.(ip := m.ip + 1, stack := m.stack[..|m.stack| - 1], out := m.out + [m.stack[|m.stack| - 1]]))
  }

  /** A binary opcode: pop `b`, pop `a`, push `a op b`. */
  function Binary(op: OpCode, m: Machine): Result<Machine>
    requires IsBinary(op)
  {
    var n := |m.stack|;
    if n < 2 then Err(StackUnderflow)
    else
      match Combine(op, m.stack[n - 2], m.stack[n - 1])
      case Err(e) => Err(e)
      case Ok(v) => Ok(m.(ip := m.ip + 1, stack := m.stack[..n - 2] + [v]))
  }

  /** The main loop of `run` with at most `fuel` more instructions: it ends
   *  once `ip` is past the last instruction. */
  function Exec(prog: seq<IRInstr>, labels: map<string, nat>, m: Machine, fuel: nat): (r: Result<Machine>)
    ensures r.Ok? ==> r.value.ip >= |prog|
    decreases fuel
  {
    if m.ip >= |prog| then Ok(m)
    else if fuel == 0 then Err(OutOfFuel)
    else
      match Step(prog[m.ip], labels, m)
      case Err(e) => Err(e)
      case Ok(next) => Exec(prog, labels, next, fuel - 1)
  }

  /** `run` on a whole program, from an empty stack and no variables. */
  function RunProgram(prog: seq<IRInstr>, fuel: nat): Result<Machine> {
    Exec(prog, Labels(prog), Start, fuel)
  }

  /** The virtual machine.  It keeps no state between runs. */
  class IRVM {
    constructor() {}

    /** `run`: the label pre-pass, then the fetch-execute loop, executing at
     *  most `fuel` instructions. */
    method Run(prog: IRProgram, fuel: nat) returns (r: Result<Machine>)
      ensures r == RunProgram(prog.instructions, fuel)
    {
      var code := prog.instructions;
      var labels: map<string, nat> := map[];
      var i := 0;
      while i < |code|
        invariant 0 <= i <= |code|
        invariant labels == LabelsUpTo(code, i)
      {
        if code[i].op == LABEL {
          labels := labels[code[i].arg := i];
        }
        i := i + 1;
      }
      var m := Start;
      var left := fuel;
      while m.ip < |code|
        invariant Exec(code, labels, m, left) == RunProgram(code, fuel)
        decreases left
      {
        if left == 0 {
          return Err(OutOfFuel);
        }
        m :- Execute(code[m.ip], labels, m.ip, m.stack, m.vars, m.out);
        left := left - 1;
      }
      return Ok(m);
    }

    /** The body of the fetch-execute loop of `run`: one instruction on the
     *  program counter, the stack and the variables, and `++ip`. */
    method Execute(instr: IRInstr, labels: map<string, nat>, ip: nat, stack: seq<int32>,
                   vars: map<string, int32>, out: seq<int32>) returns (r: Result<Machine>)
      ensures r == Step(instr, labels, Machine(ip, stack, vars, out))
    {
      ghost var old_stack := stack;
      var ip, stack, vars, out := ip, stack, vars, out;
      if IsBinary(instr.op) {
        if |stack| < 2 {
          return Err(StackUnderflow);
        }
        var b := stack[|stack| - 1];
        stack := stack[..|stack| - 1];
        var a := stack[|stack| - 1];
        stack := stack[..|stack| - 1];
        assert stack == old_stack[..|old_stack| - 2];
        var v :- Combine(instr.op, a, b);
        stack := stack + [v];
      } else {
        match instr.op {
          case PUSH =>
            var v :- ToInt(instr.arg);
            stack := stack + [v];
          case LOAD =>
            if instr.arg !in vars {
              vars := vars[instr.arg := 0];
            } else {
              assert vars[instr.arg := vars[instr.arg]] == vars;
            }
            stack := stack + [vars[instr.arg]];
          case STORE =>
            if |stack| == 0 {
              return Err(StackUnderflow);
            }
            var val := stack[|stack| - 1];
            stack := stack[..|stack| - 1];
            vars := vars[instr.arg := val];
          case JZ =>
            if |stack| == 0 {
              return Err(StackUnderflow);
            }
            var cond := stack[|stack| - 1];
            stack := stack[..|stack| - 1];
            if cond == 0 {
              ip := Target(labels, instr.arg);
            }
          case JMP =>
            ip := Target(labels, instr.arg);
          case LABEL =>
          case NOP =>
          case PRINT =>
            if |stack| == 0 {
              return Err(StackUnderflow);
            }
            var val := stack[|stack| - 1];
            stack := stack[..|stack| - 1];
            out := out + [val];
          case ADD | SUB | MUL | DIV | GT | LT | EQ =>
        }
      }
      return Ok(Machine(ip + 1, stack, vars, out));
    }
  }
}
