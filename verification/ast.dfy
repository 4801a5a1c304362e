/** The abstract syntax tree of parser.h: eight node kinds, each owning its
 *  children.  A child is a `Ptr`, an optional node, because every C++ child
 *  is a `shared_ptr` that may be null: the parser leaves an omitted `else`
 *  null, and the optimizer returns null for code it removes. */
module Ast {
  import opened Base
  import opened MachineInt

  type Ptr = Option<Node>

  datatype Node =
    | Literal(value: int32)
    | Identifier(name: string)
    | BinaryExpr(op: string, left: Ptr, right: Ptr)
    | Assignment(name: string, rhs: Ptr)
    | IfStmt(condition: Ptr, thenBranch: Ptr, elseBranch: Ptr)
    | WhileStmt(condition: Ptr, body: Ptr)
    | Block(statements: seq<Ptr>)
    | PrintStmt(expr: Ptr)

  /** The operator strings the parser puts into a BinaryExpr. */
  const ParserOps: set<string> := {"+", "-", "*", "/", "==", "!=", "<", ">"}

  /** The arithmetic operators: the ones constant folding evaluates and
   *  the ones that yield an int when evaluated. */
  const ArithOps: set<string> := {"+", "-", "*", "/"}

  /** The arithmetic operator a BinaryExpr's string names, if it names one. */
  function ArithOpOf(op: string): (r: Option<ArithOp>)
    ensures r.Some? <==> op in ArithOps
  {
    if op == "+" then Some(Add)
    else if op == "-" then Some(Sub)
    else if op == "*" then Some(Mul)
    else if op == "/" then Some(Div)
    else None
  }

  predicate IsLiteral(p: Ptr) {
    p.Some? && p.value.Literal?
  }

  /** An expression as the parser builds it: literals, identifiers and binary
   *  operators from ParserOps over two present operands. */
  predicate IsExpr(n: Node) {
    match n
    case Literal(_) => true
    case Identifier(_) => true
    case BinaryExpr(op, l, r) =>
      op in ParserOps && l.Some? && r.Some? && IsExpr(l.value) && IsExpr(r.value)
    case _ => false
  }

  /** A statement as the parser builds it: every child is present except an
   *  omitted `else`, conditions and right-hand sides are expressions, and a
   *  bare expression is an expression statement. */
  predicate IsStmt(n: Node) {
    match n
    case Assignment(_, e) => e.Some? && IsExpr(e.value)
    case IfStmt(c, t, e) =>
      c.Some? && IsExpr(c.value) && t.Some? && IsStmt(t.value) && (e.Some? ==> IsStmt(e.value))
    case WhileStmt(c, b) => c.Some? && IsExpr(c.value) && b.Some? && IsStmt(b.value)
    case Block(ss) => forall i | 0 <= i < |ss| :: ss[i].Some? && IsStmt(ss[i].value)
    case PrintStmt(e) => e.Some? && IsExpr(e.value)
    case _ => IsExpr(n)
  }

  /** The number of `if` and `while` nodes in a tree. */
  function ControlCount(p: Ptr): nat {
    match p
    case None => 0
    case Some(n) =>
      match n
      case Literal(_) => 0
      case Identifier(_) => 0
      case BinaryExpr(_, l, r) => ControlCount(l) + ControlCount(r)
      case Assignment(_, e) => ControlCount(e)
      case IfStmt(c, t, e) => 1 + ControlCount(c) + ControlCount(t) + ControlCount(e)
      case WhileStmt(c, b) => 1 + ControlCount(c) + ControlCount(b)
      case Block(ss) => ControlCountAll(ss)
      case PrintStmt(e) => ControlCount(e)
  }

  function ControlCountAll(ss: seq<Ptr>): nat {
    if ss == [] then 0 else ControlCount(ss[0]) + ControlCountAll(ss[1..])
  }
}
