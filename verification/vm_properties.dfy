/** What one run of the virtual machine does: label resolution, the effect
 *  of each kind of instruction, and the effect of the code the compiler
 *  emits for an expression. */
module VmProperties {
  import opened Base
  import opened MachineInt
  import opened Decimal
  import opened Ast
  import opened Ir
  import opened Compiler
  import opened Vm

  // ---------------------------------------------------------------------
  // Label resolution

  /** The pre-pass maps exactly the names of LABEL instructions, each to
   *  the index of a LABEL of that name with no later LABEL of the same
   *  name: the last occurrence wins. */
  lemma LabelsResolve(prog: seq<IRInstr>, n: nat)
    requires n <= |prog|
    ensures forall k :: k in LabelsUpTo(prog, n) <==> exists i :: 0 <= i < n && prog[i] == IRInstr(LABEL, k)
    ensures forall k | k in LabelsUpTo(prog, n) ::
      LabelsUpTo(prog, n)[k] < n && prog[LabelsUpTo(prog, n)[k]] == IRInstr(LABEL, k)
    ensures forall k, j | k in LabelsUpTo(prog, n) && LabelsUpTo(prog, n)[k] < j < n :: prog[j] != IRInstr(LABEL, k)
  {
    LabelNames(prog, n);
    LabelPlaces(prog, n);
    LastLabelWins(prog, n);
  }

  /** The names the pre-pass maps. */
  lemma {:induction false} LabelNames(prog: seq<IRInstr>, n: nat)
    requires n <= |prog|
    ensures forall k :: k in LabelsUpTo(prog, n) <==> exists i :: 0 <= i < n && prog[i] == IRInstr(LABEL, k)
  {
    if n > 0 {
      LabelNames(prog, n - 1);
      var before := LabelsUpTo(prog, n - 1);
      var after := LabelsUpTo(prog, n);
      forall k
        ensures k in after <==> exists i :: 0 <= i < n && prog[i] == IRInstr(LABEL, k)
      {
        if k in after && !(prog[n - 1] == IRInstr(LABEL, k)) {
          assert k in before;
          var i :| 0 <= i < n - 1 && prog[i] == IRInstr(LABEL, k);
        }
      }
    }
  }

  /** Each name is mapped to a LABEL of that name. */
  lemma {:induction false} LabelPlaces(prog: seq<IRInstr>, n: nat)
    requires n <= |prog|
    ensures forall k | k in LabelsUpTo(prog, n) ::
      LabelsUpTo(prog, n)[k] < n && prog[LabelsUpTo(prog, n)[k]] == IRInstr(LABEL, k)
  {
    if n > 0 {
      LabelPlaces(prog, n - 1);
    }
  }

  /** No LABEL of the same name comes after the one a name is mapped to. */
  lemma {:induction false} LastLabelWins(prog: seq<IRInstr>, n: nat)
    requires n <= |prog|
    ensures forall k, j | k in LabelsUpTo(prog, n) && LabelsUpTo(prog, n)[k] < j < n :: prog[j] != IRInstr(LABEL, k)
  {
    if n > 0 {
      LastLabelWins(prog, n - 1);
      LabelPlaces(prog, n - 1);
    }
  }

  /** A label that occurs exactly once resolves to where it is. */
  lemma UniqueLabelResolves(prog: seq<IRInstr>, i: nat, k: string)
    requires i < |prog| && prog[i] == IRInstr(LABEL, k)
    requires forall j | 0 <= j < |prog| && j != i :: prog[j] != IRInstr(LABEL, k)
    ensures k in Labels(prog) && Labels(prog)[k] == i
  {
    LabelsResolve(prog, |prog|);
  }

  // ---------------------------------------------------------------------
  // Single instructions

  /** After a jump to a label that exists, the instruction that runs next
   *  is the one after that LABEL. */
  lemma JumpResumesAfterLabel(prog: seq<IRInstr>, k: string, m: Machine)
    requires k in Labels(prog)
    ensures var r := Step(IRInstr(JMP, k), Labels(prog), m);
            r.Ok? && 1 <= r.value.ip <= |prog| && prog[r.value.ip - 1] == IRInstr(LABEL, k)
  {
    LabelsResolve(prog, |prog|);
  }

  /** A jump to a label that does not exist goes to index 0, so the
   *  instruction at index 1 runs next. */
  lemma UnknownLabelResumesAtOne(prog: seq<IRInstr>, k: string, m: Machine, c: int32)
    requires k !in Labels(prog)
    ensures Step(IRInstr(JMP, k), Labels(prog), m) == Ok(m.(ip := 1))
    ensures Step(IRInstr(JZ, k), Labels(prog), m.(stack := m.stack + [0])) == Ok(m.(ip := 1))
  {
    assert (m.stack + [0])[..|m.stack|] == m.stack;
  }

  /** JZ always pops; it jumps when the popped value is 0 and otherwise
   *  goes on with the next instruction.  JMP always jumps and pops
   *  nothing. */
  lemma JumpsPop(k: string, labels: map<string, nat>, m: Machine, s: seq<int32>, c: int32)
    requires m.stack == s + [c]
    ensures Step(IRInstr(JZ, k), labels, m)
            == Ok(m.(ip := (if c == 0 then Target(labels, k) else m.ip) + 1, stack := s))
    ensures Step(IRInstr(JMP, k), labels, m) == Ok(m.(ip := Target(labels, k) + 1))
  {
    assert m.stack[..|s|] == s;
  }

  /** A binary opcode pops the right operand `b` (the top), then the left
   *  operand `a`, and pushes `a op b`; comparisons push 1 or 0. */
  lemma BinaryPopsRightFirst(op: OpCode, labels: map<string, nat>, m: Machine, s: seq<int32>, a: int32, b: int32)
    requires IsBinary(op) && m.stack == s + [a, b]
    ensures Step(Plain(op), labels, m) ==
      match Combine(op, a, b)
      case Err(e) => Err(e)
      case Ok(v) => Ok(m.(ip := m.ip + 1, stack := s + [v]))
  {
    assert m.stack[..|s|] == s;
  }

  /** The number of operands an opcode pops. */
  function Pops(op: OpCode): nat {
    if IsBinary(op) then 2 else if op in {STORE, JZ, PRINT} then 1 else 0
  }

  /** An instruction fails with StackUnderflow exactly when the stack holds
   *  fewer values than it pops. */
  lemma UnderflowExactly(instr: IRInstr, labels: map<string, nat>, m: Machine)
    requires instr.op != PUSH
    ensures Step(instr, labels, m) == Err(StackUnderflow) <==> |m.stack| < Pops(instr.op)
  {
  }

  /** LOAD of a variable with no value pushes 0 and binds it to 0; STORE
   *  pops the top into the variable; PRINT pops the top and emits it. */
  lemma VariablesAndPrint(x: string, labels: map<string, nat>, m: Machine, s: seq<int32>, v: int32)
    requires m.stack == s + [v]
    ensures x !in m.vars ==>
      Step(IRInstr(LOAD, x), labels, m) == Ok(m.(ip := m.ip + 1, stack := m.stack + [0], vars := m.vars[x := 0]))
    ensures Step(IRInstr(STORE, x), labels, m) == Ok(m.(ip := m.ip + 1, stack := s, vars := m.vars[x := v]))
    ensures Step(Plain(PRINT), labels, m) == Ok(m.(ip := m.ip + 1, stack := s, out := m.out + [v]))
  {
    assert m.stack[..|s|] == s;
  }

  /** LABEL and NOP change nothing but `ip`. */
  lemma MarkersOnlyAdvance(instr: IRInstr, labels: map<string, nat>, m: Machine)
    requires instr.op == LABEL || instr.op == NOP
    ensures Step(instr, labels, m) == Ok(m.(ip := m.ip + 1))
  {
  }

  /** The run ends as soon as `ip` is past the last instruction, and runs
   *  no instruction once it is. */
  lemma HaltsPastEnd(prog: seq<IRInstr>, labels: map<string, nat>, m: Machine, fuel: nat)
    ensures Exec(prog, labels, m, fuel) == Ok(m) <==> m.ip >= |prog|
  {
  }

  // ---------------------------------------------------------------------
  // Straight-line code

  /** Code without jumps, executed from its first instruction to its last. */
  function Straight(code: seq<IRInstr>, labels: map<string, nat>, m: Machine): Result<Machine>
  {
    if code == [] then Ok(m)
    else
      match Step(code[0], labels, m)
      case Err(e) => Err(e)
      case Ok(next) => Straight(code[1..], labels, next)
  }

  /** An instruction that is not a jump moves to the next one. */
  predicate NoJumps(code: seq<IRInstr>) {
    forall i | 0 <= i < |code| :: code[i].op != JZ && code[i].op != JMP
  }

  /** Running two pieces of code one after the other. */
  lemma {:induction false} StraightAppend(a: seq<IRInstr>, b: seq<IRInstr>, labels: map<string, nat>, m: Machine)
    ensures Straight(a + b, labels, m) ==
      match Straight(a, labels, m)
      case Err(e) => Err(e)
      case Ok(m1) => Straight(b, labels, m1)
    decreases |a|
  {
    if a == [] {
      assert a + b == b;
    } else {
      assert (a + b)[0] == a[0];
      assert (a + b)[1..] == a[1..] + b;
      match Step(a[0], labels, m)
      case Err(_) =>
      case Ok(next) => StraightAppend(a[1..], b, labels, next);
    }
  }

  /** An instruction other than a jump moves on to the next one. */
  lemma StepAdvances(instr: IRInstr, labels: map<string, nat>, m: Machine)
    requires instr.op != JZ && instr.op != JMP
    ensures Step(instr, labels, m).Ok? ==> Step(instr, labels, m).value.ip == m.ip + 1
  {
  }

  /** One turn of the main loop. */
  lemma ExecOnce(prog: seq<IRInstr>, labels: map<string, nat>, m: Machine, fuel: nat)
    requires m.ip < |prog|
    ensures var s := Step(prog[m.ip], labels, m);
      Exec(prog, labels, m, fuel + 1) == if s.Ok? then Exec(prog, labels, s.value, fuel) else Err(s.error)
  {
  }

  /** Code without jumps that sits in a program at `ip` runs there as it
   *  runs alone, and the run goes on from the state it ends in. */
  lemma StraightInProgram(prog: seq<IRInstr>, code: seq<IRInstr>, labels: map<string, nat>, m: Machine, fuel: nat)
    requires NoJumps(code)
    requires m.ip + |code| <= |prog| && prog[m.ip..m.ip + |code|] == code
    ensures var s := Straight(code, labels, m);
      Exec(prog, labels, m, fuel + |code|) == if s.Ok? then Exec(prog, labels, s.value, fuel) else Err(s.error)
  {
    PlacedWhere(prog, m.ip, code);
    RunsInPlace(prog, code, labels, m, fuel);
  }

  /** `code` sits in `prog` from index `i` on, and holds no jump. */
  predicate Placed(prog: seq<IRInstr>, i: nat, code: seq<IRInstr>)
    decreases |code|
  {
    code == [] ||
    (i < |prog| && prog[i] == code[0] && code[0].op != JZ && code[0].op != JMP && Placed(prog, i + 1, code[1..]))
  }

  lemma {:induction false} PlacedWhere(prog: seq<IRInstr>, i: nat, code: seq<IRInstr>)
    requires NoJumps(code) && i + |code| <= |prog| && prog[i..i + |code|] == code
    ensures Placed(prog, i, code)
    decreases |code|
  {
    if code != [] {
      assert prog[i] == code[0];
      assert prog[i + 1..i + 1 + |code[1..]|] == code[1..];
      PlacedWhere(prog, i + 1, code[1..]);
    }
  }

  /** StraightInProgram, by induction on the placed code. */
  lemma {:induction false} RunsInPlace(prog: seq<IRInstr>, code: seq<IRInstr>, labels: map<string, nat>, m: Machine, fuel: nat)
    requires Placed(prog, m.ip, code)
    ensures var s := Straight(code, labels, m);
      Exec(prog, labels, m, fuel + |code|) == if s.Ok? then Exec(prog, labels, s.value, fuel) else Err(s.error)
    decreases |code|
  {
    if code != [] {
      var s := Step(code[0], labels, m);
      StepAdvances(code[0], labels, m);
      assert fuel + |code| == (fuel + |code[1..]|) + 1;
      ExecOnce(prog, labels, m, fuel + |code[1..]|);
      if s.Ok? {
        RunsInPlace(prog, code[1..], labels, s.value, fuel);
      }
    }
  }

  /** Code without jumps ends, if it does not fail, just past its last
   *  instruction. */
  lemma {:induction false} StraightAdvances(code: seq<IRInstr>, labels: map<string, nat>, m: Machine)
    requires NoJumps(code)
    ensures Straight(code, labels, m).Ok? ==> Straight(code, labels, m).value.ip == m.ip + |code|
    decreases |code|
  {
    if code != [] {
      StepAdvances(code[0], labels, m);
      var s := Step(code[0], labels, m);
      if s.Ok? {
        assert NoJumps(code[1..]);
        StraightAdvances(code[1..], labels, s.value);
      }
    }
  }

  // ---------------------------------------------------------------------
  // Expressions

  /** The expressions the compiler translates without loss: literals,
   *  identifiers, and the seven operators that have an opcode, over
   *  present operands. */
  predicate Compilable(p: Ptr) {
    match p
    case None => false
    case Some(n) =>
      match n
      case Literal(_) => true
      case Identifier(_) => true
      case BinaryExpr(op, l, r) => |OperatorCode(op)| == 1 && Compilable(l) && Compilable(r)
      case _ => false
  }

  /** A variable as LOAD reads it. */
  function Lookup(vars: map<string, int32>, x: string): int32 {
    if x in vars then vars[x] else 0
  }

  /** The value the machine computes for an expression over `vars`: an
   *  unbound variable reads as 0, comparisons yield 1 or 0. */
  function VmValue(p: Ptr, vars: map<string, int32>): (r: Result<int32>)
    requires Compilable(p)
    ensures r.Err? ==> r.error == Overflow || r.error == DivisionByZero
  {
    match p.value
    case Literal(v) => Ok(v)
    case Identifier(x) => Ok(Lookup(vars, x))
    case BinaryExpr(op, l, r) =>
      match VmValue(l, vars)
      case Err(e) => Err(e)
      case Ok(a) =>
        match VmValue(r, vars)
        case Err(e) => Err(e)
        case Ok(b) => Combine(OperatorCode(op)[0].op, a, b)
  }

  /** The variables after the LOADs of an expression: each one it reads
   *  that had no value now holds 0. */
  function Loaded(p: Ptr, vars: map<string, int32>): map<string, int32>
    requires Compilable(p)
  {
    match p.value
    case Literal(_) => vars
    case Identifier(x) => vars[x := Lookup(vars, x)]
    case BinaryExpr(_, l, r) => Loaded(r, Loaded(l, vars))
  }

  /** LOAD's default does not change what any variable reads as. */
  lemma {:induction false} LoadedReadsAlike(p: Ptr, vars: map<string, int32>, x: string)
    requires Compilable(p)
    ensures Lookup(Loaded(p, vars), x) == Lookup(vars, x)
  {
    match p.value
    case Literal(_) =>
    case Identifier(_) =>
    case BinaryExpr(_, l, r) =>
      LoadedReadsAlike(l, vars, x);
      LoadedReadsAlike(r, Loaded(l, vars), x);
  }

  /** So an expression has the same value before and after another one's
   *  LOADs. */
  lemma {:induction false} ValueAfterLoads(p: Ptr, q: Ptr, vars: map<string, int32>)
    requires Compilable(p) && Compilable(q)
    ensures VmValue(p, Loaded(q, vars)) == VmValue(p, vars)
  {
    match p.value
    case Literal(_) =>
    case Identifier(x) => LoadedReadsAlike(q, vars, x);
    case BinaryExpr(_, l, r) =>
      ValueAfterLoads(l, q, vars);
      ValueAfterLoads(r, q, vars);
  }

  /** The code of an expression, which uses no label. */
  function ExprCode(p: Ptr): seq<IRInstr>
    requires Compilable(p)
  {
    match p.value
    case Literal(v) => [IRInstr(PUSH, IntToString(v as int))]
    case Identifier(x) => [IRInstr(LOAD, x)]
    case BinaryExpr(op, l, r) => ExprCode(l) + ExprCode(r) + OperatorCode(op)
  }

  /** The compiler emits ExprCode for an expression, and takes no label
   *  number for it. */
  lemma {:induction false} CompiledExpression(p: Ptr, lc: nat)
    requires Compilable(p)
    ensures Compile(p, lc) == Compiled(ExprCode(p), lc)
  {
    match p.value
    case Literal(_) =>
    case Identifier(_) =>
    case BinaryExpr(op, l, r) =>
      CompiledExpression(l, lc);
      CompiledExpression(r, lc);
  }

  /** The code of an expression contains no jump. */
  lemma {:induction false} ExpressionCodeHasNoJumps(p: Ptr)
    requires Compilable(p)
    ensures NoJumps(ExprCode(p))
  {
    match p.value
    case Literal(_) =>
    case Identifier(_) =>
    case BinaryExpr(op, l, r) =>
      var cl, cr := ExprCode(l), ExprCode(r);
      ExpressionCodeHasNoJumps(l);
      ExpressionCodeHasNoJumps(r);
      var code := cl + cr + OperatorCode(op);
      forall i | 0 <= i < |code|
        ensures code[i].op != JZ && code[i].op != JMP
      {
        if i < |cl| {
          assert code[i] == cl[i];
        } else if i < |cl| + |cr| {
          assert code[i] == cr[i - |cl|];
        }
      }
  }

  /** What an expression's code should leave behind: its value pushed,
   *  `ip` past the code, the variables it reads bound; or the error its
   *  arithmetic raises. */
  function Pushed(p: Ptr, m: Machine): Result<Machine>
    requires Compilable(p)
  {
    match VmValue(p, m.vars)
    case Err(e) => Err(e)
    case Ok(v) => Ok(Machine(m.ip + |ExprCode(p)|, m.stack + [v], Loaded(p, m.vars), m.out))
  }

  /** The stack effect of an expression's code: it pushes exactly one value,
   *  the expression's value, and leaves the rest of the stack alone; it
   *  never underflows, whatever the stack held before; it fails only where
   *  the arithmetic does. */
  lemma ExpressionPushesItsValue(p: Ptr, lc: nat, labels: map<string, nat>, m: Machine)
    requires Compilable(p)
    ensures Straight(Compile(p, lc).code, labels, m) == Pushed(p, m)
  {
    CompiledExpression(p, lc);
    ExprCodePushes(p, labels, m);
  }

  lemma {:induction false} ExprCodePushes(p: Ptr, labels: map<string, nat>, m: Machine)
    requires Compilable(p)
    ensures Straight(ExprCode(p), labels, m) == Pushed(p, m)
    decreases p, 1
  {
    match p.value
    case Literal(v) => ToIntRoundTrip(v);
    case Identifier(_) =>
    case BinaryExpr(op, l, r) => BinaryPushesItsValue(op, l, r, labels, m);
  }

  /** The step of ExprCodePushes for a binary operator. */
  lemma {:induction false} BinaryPushesItsValue(op: string, l: Ptr, r: Ptr, labels: map<string, nat>, m: Machine)
    requires Compilable(Some(BinaryExpr(op, l, r)))
    ensures Straight(ExprCode(Some(BinaryExpr(op, l, r))), labels, m) == Pushed(Some(BinaryExpr(op, l, r)), m)
    decreases Some(BinaryExpr(op, l, r)), 0
  {
    var opc := OperatorCode(op)[0].op;
    ExprCodePushes(l, labels, m);
    if Pushed(l, m).Ok? {
      ExprCodePushes(r, labels, Pushed(l, m).value);
    }
    PushedBinary(op, l, r, opc, m);
    StraightThree(ExprCode(l), ExprCode(r), opc, labels, m);
  }

  /** Operand code, more operand code, then a binary opcode. */
  lemma StraightThree(cl: seq<IRInstr>, cr: seq<IRInstr>, opc: OpCode, labels: map<string, nat>, m: Machine)
    requires IsBinary(opc)
    ensures Straight(cl + cr + [Plain(opc)], labels, m) ==
      match Straight(cl, labels, m)
      case Err(e) => Err(e)
      case Ok(m1) =>
        match Straight(cr, labels, m1)
        case Err(e) => Err(e)
        case Ok(m2) => Binary(opc, m2)
  {
    assert cl + cr + [Plain(opc)] == cl + (cr + [Plain(opc)]);
    StraightAppend(cl, cr + [Plain(opc)], labels, m);
    if Straight(cl, labels, m).Ok? {
      StraightAppend(cr, [Plain(opc)], labels, Straight(cl, labels, m).value);
    }
  }

  /** Pushed for a binary expression, composed as its code runs: the left
   *  operand, then the right one, then the operator on both. */
  lemma PushedBinary(op: string, l: Ptr, r: Ptr, opc: OpCode, m: Machine)
    requires Compilable(Some(BinaryExpr(op, l, r))) && opc == OperatorCode(op)[0].op
    ensures IsBinary(opc) && ExprCode(Some(BinaryExpr(op, l, r))) == ExprCode(l) + ExprCode(r) + [Plain(opc)]
    ensures Pushed(Some(BinaryExpr(op, l, r)), m) ==
      match Pushed(l, m)
      case Err(e) => Err(e)
      case Ok(m1) =>
        match Pushed(r, m1)
        case Err(e) => Err(e)
        case Ok(m2) => Binary(opc, m2)
  {
    assert OperatorCode(op) == [Plain(opc)];
    if VmValue(l, m.vars).Ok? {
      ValueAfterLoads(r, l, m.vars);
      if VmValue(r, m.vars).Ok? {
        var m1 := Pushed(l, m).value;
        var m2 := Pushed(r, m1).value;
        TwoPushes(l, r, m, m1, m2);
        BinaryParts(op, l, r, opc, m.vars);
        OperatorPushes(Some(BinaryExpr(op, l, r)), opc, m, m2, VmValue(l, m.vars).value, VmValue(r, m.vars).value);
      }
    }
  }

  /** The last step of a binary expression's code: the operator on the
   *  state the operands leave, with `a` and `b` on top, yields what Pushed
   *  says of the whole expression. */
  lemma OperatorPushes(p: Ptr, opc: OpCode, m: Machine, m2: Machine, a: int32, b: int32)
    requires Compilable(p) && IsBinary(opc)
    requires VmValue(p, m.vars) == Combine(opc, a, b)
    requires m2.stack == m.stack + [a] + [b]
    requires m2.ip + 1 == m.ip + |ExprCode(p)| && m2.vars == Loaded(p, m.vars) && m2.out == m.out
    ensures Pushed(p, m) == Binary(opc, m2)
  {
    PushedOfValue(p, m, Combine(opc, a, b));
    BinaryOnTop(opc, m2, m.stack, a, b);
  }

  /** The state two expressions' code leaves: both values pushed, in order. */
  lemma TwoPushes(l: Ptr, r: Ptr, m: Machine, m1: Machine, m2: Machine)
    requires Compilable(l) && Compilable(r)
    requires Pushed(l, m) == Ok(m1) && Pushed(r, m1) == Ok(m2)
    requires VmValue(r, Loaded(l, m.vars)) == VmValue(r, m.vars)
    ensures VmValue(l, m.vars).Ok? && VmValue(r, m.vars).Ok?
    ensures m2.stack == m.stack + [VmValue(l, m.vars).value] + [VmValue(r, m.vars).value]
    ensures m2.ip == m.ip + |ExprCode(l)| + |ExprCode(r)| && m2.vars == Loaded(r, Loaded(l, m.vars)) && m2.out == m.out
  {
  }

  /** Pushed for an expression whose value is `v`. */
  lemma PushedOfValue(p: Ptr, m: Machine, v: Result<int32>)
    requires Compilable(p) && VmValue(p, m.vars) == v
    ensures Pushed(p, m) == if v.Ok? then Ok(Machine(m.ip + |ExprCode(p)|, m.stack + [v.value], Loaded(p, m.vars), m.out)) else Err(v.error)
  {
  }
  /** One unfolding of VmValue, ExprCode and Loaded at a binary operator. */
  lemma BinaryParts(op: string, l: Ptr, r: Ptr, opc: OpCode, vars: map<string, int32>)
    requires Compilable(Some(BinaryExpr(op, l, r))) && OperatorCode(op) == [Plain(opc)]
    ensures IsBinary(opc)
    ensures VmValue(l, vars).Ok? && VmValue(r, vars).Ok? ==>
      VmValue(Some(BinaryExpr(op, l, r)), vars) == Combine(opc, VmValue(l, vars).value, VmValue(r, vars).value)
    ensures |ExprCode(Some(BinaryExpr(op, l, r)))| == |ExprCode(l)| + |ExprCode(r)| + 1
    ensures Loaded(Some(BinaryExpr(op, l, r)), vars) == Loaded(r, Loaded(l, vars))
  {
  }

  /** A binary opcode on a stack whose top two values are `a` and `b`. */
  lemma BinaryOnTop(opc: OpCode, m: Machine, s: seq<int32>, a: int32, b: int32)
    requires IsBinary(opc) && m.stack == s + [a] + [b]
    ensures var c := Combine(opc, a, b);
      Binary(opc, m) == if c.Ok? then Ok(m.(ip := m.ip + 1, stack := s + [c.value])) else Err(c.error)
  {
    var n := |m.stack|;
    assert m.stack[n - 2] == a && m.stack[n - 1] == b && m.stack[..n - 2] == s;
  }

  /** Corollary: an expression's code never underflows the stack. */
  lemma ExpressionNeverUnderflows(p: Ptr, lc: nat, labels: map<string, nat>, m: Machine)
    requires Compilable(p)
    ensures Straight(Compile(p, lc).code, labels, m) != Err(StackUnderflow)
  {
    ExpressionPushesItsValue(p, lc, labels, m);
  }
}
