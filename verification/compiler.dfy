/** `compileAST` (ir.h:188-243): post-order code for expressions, and
 *  `if`/`while` laid out with JZ, JMP and LABEL.  Every `if` and `while`
 *  takes the next two numbers of the label counter, before its children are
 *  compiled, for its two labels. */
module Compiler {
  import opened Base
  import opened MachineInt
  import opened Decimal
  import opened Ast
  import opened Ir

  /** Code and the label counter after it. */
  datatype Compiled = Compiled(code: seq<IRInstr>, next: nat)

  const ElsePrefix: string := "L_else_"
  const EndPrefix: string := "L_end_"
  const StartPrefix: string := "L_start_"

  /** A label: one of the three prefixes and a counter value. */
  function LabelName(prefix: string, n: nat): string {
    prefix + NatToString(n)
  }

  /** The opcode for an operator: `+ - * / > < ==`, nothing for any other. */
  function OperatorCode(op: string): (r: seq<IRInstr>)
    ensures |r| <= 1
    ensures |r| == 1 <==> op in ArithOps || op in {">", "<", "=="}
    ensures |r| == 1 ==> r[0] == Plain(r[0].op) && IsBinary(r[0].op)
  {
    if op == "+" then [Plain(ADD)]
    else if op == "-" then [Plain(SUB)]
    else if op == "*" then [Plain(MUL)]
    else if op == "/" then [Plain(DIV)]
    else if op == ">" then [Plain(GT)]
    else if op == "<" then [Plain(LT)]
    else if op == "==" then [Plain(EQ)]
    else []
  }

  /** The code `compileAST` appends for a tree, given the label counter. */
  function Compile(p: Ptr, lc: nat): (c: Compiled)
    ensures c.next == lc + 2 * ControlCount(p)
    decreases p, 1
  {
    match p
    case None => Compiled([], lc)
    case Some(n) =>
      match n
      case Block(ss) => CompileAll(ss, lc)
      case Assignment(x, e) =>
        var v := Compile(e, lc);
        Compiled(v.code + [IRInstr(STORE, x)], v.next)
      case BinaryExpr(op, l, r) =>
        var a := Compile(l, lc);
        var b := Compile(r, a.next);
        Compiled(a.code + b.code + OperatorCode(op), b.next)
      case Literal(v) => Compiled([IRInstr(PUSH, IntToString(v as int))], lc)
      case Identifier(x) => Compiled([IRInstr(LOAD, x)], lc)
      case IfStmt(c, t, e) => IfCode(c, t, e, lc)
      case WhileStmt(c, b) => WhileCode(c, b, lc)
      case PrintStmt(e) =>
        var v := Compile(e, lc);
        Compiled(v.code + [Plain(PRINT)], v.next)
  }

  /** An `if` takes labels `lc` and `lc + 1`, then lays out
   *  cond, JZ else, then, JMP end, LABEL else, [else], LABEL end. */
  function IfCode(c: Ptr, t: Ptr, e: Ptr, lc: nat): (k: Compiled)
    ensures k.next == lc + 2 * ControlCount(Some(IfStmt(c, t, e)))
    decreases Some(IfStmt(c, t, e)), 0
  {
    var elseLabel := LabelName(ElsePrefix, lc);
    var endLabel := LabelName(EndPrefix, lc + 1);
    var cc := Compile(c, lc + 2);
    var tc := Compile(t, cc.next);
    var ec := if e.Some? then Compile(e, tc.next) else Compiled([], tc.next);
    Compiled(cc.code + [IRInstr(JZ, elseLabel)] + tc.code
             + [IRInstr(JMP, endLabel), IRInstr(LABEL, elseLabel)]
             + ec.code + [IRInstr(LABEL, endLabel)],
             ec.next)
  }

  /** A `while` takes labels `lc` and `lc + 1`, then lays out
   *  LABEL start, cond, JZ end, body, JMP start, LABEL end. */
  function WhileCode(c: Ptr, b: Ptr, lc: nat): (k: Compiled)
    ensures k.next == lc + 2 * ControlCount(Some(WhileStmt(c, b)))
    decreases Some(WhileStmt(c, b)), 0
  {
    var startLabel := LabelName(StartPrefix, lc);
    var endLabel := LabelName(EndPrefix, lc + 1);
    var cc := Compile(c, lc + 2);
    var bc := Compile(b, cc.next);
    Compiled([IRInstr(LABEL, startLabel)] + cc.code + [IRInstr(JZ, endLabel)] + bc.code
             + [IRInstr(JMP, startLabel), IRInstr(LABEL, endLabel)],
             bc.next)
  }

  /** The statements of a block, one after the other. */
  function CompileAll(ss: seq<Ptr>, lc: nat): (c: Compiled)
    ensures c.next == lc + 2 * ControlCountAll(ss)
    decreases ss, 0
  {
    if ss == [] then Compiled([], lc)
    else
      var init := CompileAll(ss[..|ss| - 1], lc);
      var last := Compile(ss[|ss| - 1], init.next);
      ControlCountSnoc(ss);
      Compiled(init.code + last.code, last.next)
  }

  /** Counting over a block, with its last statement split off. */
  lemma {:induction false} ControlCountSnoc(ss: seq<Ptr>)
    requires ss != []
    ensures ControlCountAll(ss) == ControlCountAll(ss[..|ss| - 1]) + ControlCount(ss[|ss| - 1])
    decreases |ss|
  {
    if |ss| > 1 {
      var tail := ss[1..];
      ControlCountSnoc(tail);
      assert tail[..|tail| - 1] == ss[..|ss| - 1][1..];
    }
  }

  /** `compileAST` itself: it appends to `ir.instructions`, and the label
   *  counter passed by reference comes back as `count`. */
  method CompileAST(p: Ptr, ir: IRProgram, labelCount: nat) returns (count: nat)
    modifies ir
    ensures ir.instructions == old(ir.instructions) + Compile(p, labelCount).code
    ensures count == Compile(p, labelCount).next
    decreases p, 1
  {
    count := labelCount;
    if p.None? {
      return;
    }
    ghost var before := ir.instructions;
    match p.value
    case Block(ss) =>
      count := CompileBlock(ss, ir, count);
    case Assignment(x, e) =>
      count := CompileAST(e, ir, count);
      ir.instructions := ir.instructions + [IRInstr(STORE, x)];
      AppendTwice(before, Compile(e, labelCount).code, [IRInstr(STORE, x)]);
    case BinaryExpr(op, l, r) =>
      count := CompileAST(l, ir, count);
      ghost var lc := count;
      count := CompileAST(r, ir, count);
      AppendTwice(before, Compile(l, labelCount).code, Compile(r, lc).code);
      ir.instructions := ir.instructions + OperatorCode(op);
      AppendTwice(before, Compile(l, labelCount).code + Compile(r, lc).code, OperatorCode(op));
    case Literal(v) =>
      ir.instructions := ir.instructions + [IRInstr(PUSH, IntToString(v as int))];
    case Identifier(x) =>
      ir.instructions := ir.instructions + [IRInstr(LOAD, x)];
    case IfStmt(c, t, e) =>
      count := CompileIf(c, t, e, ir, count);
    case WhileStmt(c, b) =>
      count := CompileWhile(c, b, ir, count);
    case PrintStmt(e) =>
      count := CompileAST(e, ir, count);
      ir.instructions := ir.instructions + [Plain(PRINT)];
      AppendTwice(before, Compile(e, labelCount).code, [Plain(PRINT)]);
  }

  /** The Block case: each statement in turn. */
  method CompileBlock(ss: seq<Ptr>, ir: IRProgram, labelCount: nat) returns (count: nat)
    modifies ir
    ensures ir.instructions == old(ir.instructions) + CompileAll(ss, labelCount).code
    ensures count == CompileAll(ss, labelCount).next
    decreases Some(Block(ss)), 0
  {
    count := labelCount;
    var i := 0;
    while i < |ss|
      invariant 0 <= i <= |ss|
      invariant ir.instructions == old(ir.instructions) + CompileAll(ss[..i], labelCount).code
      invariant count == CompileAll(ss[..i], labelCount).next
    {
      CompileAllStep(ss, i, labelCount);
      ghost var lc := count;
      count := CompileAST(ss[i], ir, count);
      AppendTwice(old(ir.instructions), CompileAll(ss[..i], labelCount).code, Compile(ss[i], lc).code);
      i := i + 1;
    }
    assert ss[..i] == ss;
  }

  /** One more statement of a block: its code follows the code before it. */
  lemma CompileAllStep(ss: seq<Ptr>, i: nat, lc: nat)
    requires i < |ss|
    ensures var before := CompileAll(ss[..i], lc);
            var one := Compile(ss[i], before.next);
            CompileAll(ss[..i + 1], lc) == Compiled(before.code + one.code, one.next)
  {
    assert ss[..i + 1][..i] == ss[..i];
  }

  /** Appending in two steps is appending once. */
  lemma AppendTwice(a: seq<IRInstr>, b: seq<IRInstr>, c: seq<IRInstr>)
    ensures a + b + c == a + (b + c)
  {
  }

  /** The IfStmt case: two fresh labels, then the layout
   *  cond, JZ else, then, JMP end, LABEL else, [else], LABEL end. */
  method CompileIf(c: Ptr, t: Ptr, e: Ptr, ir: IRProgram, labelCount: nat) returns (count: nat)
    modifies ir
    ensures ir.instructions == old(ir.instructions) + IfCode(c, t, e, labelCount).code
    ensures count == IfCode(c, t, e, labelCount).next
    decreases Some(IfStmt(c, t, e)), 0
  {
    ghost var before := ir.instructions;
    count := labelCount;
    var elseLabel := LabelName(ElsePrefix, count);
    count := count + 1;
    var endLabel := LabelName(EndPrefix, count);
    count := count + 1;
    count := CompileAST(c, ir, count);
    ghost var code := Compile(c, labelCount + 2).code;
    ir.instructions := ir.instructions + [IRInstr(JZ, elseLabel)];
    AppendTwice(before, code, [IRInstr(JZ, elseLabel)]);
    code := code + [IRInstr(JZ, elseLabel)];
    ghost var lc := count;
    count := CompileAST(t, ir, count);
    AppendTwice(before, code, Compile(t, lc).code);
    code := code + Compile(t, lc).code;
    ir.instructions := ir.instructions + [IRInstr(JMP, endLabel), IRInstr(LABEL, elseLabel)];
    AppendTwice(before, code, [IRInstr(JMP, endLabel), IRInstr(LABEL, elseLabel)]);
    code := code + [IRInstr(JMP, endLabel), IRInstr(LABEL, elseLabel)];
    lc := count;
    if e.Some? {
      count := CompileAST(e, ir, count);
      AppendTwice(before, code, Compile(e, lc).code);
      code := code + Compile(e, lc).code;
    } else {
      assert code + [] == code;
      code := code + [];
    }
    ir.instructions := ir.instructions + [IRInstr(LABEL, endLabel)];
    AppendTwice(before, code, [IRInstr(LABEL, endLabel)]);
    code := code + [IRInstr(LABEL, endLabel)];
  }

  /** The WhileStmt case: two fresh labels, then the layout
   *  LABEL start, cond, JZ end, body, JMP start, LABEL end. */
  method CompileWhile(c: Ptr, b: Ptr, ir: IRProgram, labelCount: nat) returns (count: nat)
    modifies ir
    ensures ir.instructions == old(ir.instructions) + WhileCode(c, b, labelCount).code
    ensures count == WhileCode(c, b, labelCount).next
    decreases Some(WhileStmt(c, b)), 0
  {
    ghost var before := ir.instructions;
    count := labelCount;
    var startLabel := LabelName(StartPrefix, count);
    count := count + 1;
    var endLabel := LabelName(EndPrefix, count);
    count := count + 1;
    ir.instructions := ir.instructions + [IRInstr(LABEL, startLabel)];
    ghost var code := [IRInstr(LABEL, startLabel)];
    ghost var lc := count;
    count := CompileAST(c, ir, count);
    AppendTwice(before, code, Compile(c, lc).code);
    code := code + Compile(c, lc).code;
    ir.instructions := ir.instructions + [IRInstr(JZ, endLabel)];
    AppendTwice(before, code, [IRInstr(JZ, endLabel)]);
    code := code + [IRInstr(JZ, endLabel)];
    lc := count;
    count := CompileAST(b, ir, count);
    AppendTwice(before, code, Compile(b, lc).code);
    code := code + Compile(b, lc).code;
    ir.instructions := ir.instructions + [IRInstr(JMP, startLabel), IRInstr(LABEL, endLabel)];
    AppendTwice(before, code, [IRInstr(JMP, startLabel), IRInstr(LABEL, endLabel)]);
    code := code + [IRInstr(JMP, startLabel), IRInstr(LABEL, endLabel)];
  }
}
