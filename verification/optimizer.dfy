/** `optimizeAST` (parsers.cpp:7-68): a bottom-up rewrite that folds `+ - * /`
 *  over two literals, collapses an `if` whose condition became a literal,
 *  drops a `while` whose condition became the literal 0, and removes the
 *  statements of a block that were optimized away.  Children are always
 *  optimized before their parent looks at them, so an error in any child,
 *  even one about to be discarded, is the error of the whole. */
module Optimizer {
  import opened Base
  import opened MachineInt
  import opened Ast

  /** A BinaryExpr whose optimized operands are the literals `a` and `b`:
   *  folded into one literal when `op` is arithmetic, rebuilt otherwise. */
  function Fold(op: string, a: int32, b: int32): (r: Result<Ptr>)
    ensures op !in ArithOps ==> r == Ok(Some(BinaryExpr(op, Some(Literal(a)), Some(Literal(b)))))
    ensures op in ArithOps ==>
      (r == Err(FoldDivisionByZero) <==> op == "/" && b == 0)
    ensures op in ArithOps ==>
      (r == Err(Overflow) <==> !(op == "/" && b == 0) && !InRange(Exact(ArithOpOf(op).value, a as int, b as int)))
    ensures op in ArithOps && r.Ok? ==>
      r.value.Some? && r.value.value.Literal? &&
      r.value.value.value as int == Exact(ArithOpOf(op).value, a as int, b as int)
  {
    match ArithOpOf(op)
    case None => Ok(Some(BinaryExpr(op, Some(Literal(a)), Some(Literal(b)))))
    case Some(o) =>
      if o == Div && b == 0 then Err(FoldDivisionByZero)
      else
        match Apply(o, a, b)
        case Err(e) => Err(e)
        case Ok(v) => Ok(Some(Literal(v)))
  }

  /** The specification of `optimizeAST`: null for removed code, an error for
   *  a failed fold. */
  function Optimize(p: Ptr): (r: Result<Ptr>)
    decreases p, 1
  {
    match p
    case None => Ok(None)
    case Some(n) =>
      match n
      case BinaryExpr(op, l, r) => OptimizeBinary(op, l, r)
      case Assignment(name, e) =>
        (match Optimize(e)
         case Err(err) => Err(err)
         case Ok(e') => Ok(Some(Assignment(name, e'))))
      case IfStmt(c, t, e) => OptimizeIf(c, t, e)
      case WhileStmt(c, b) => OptimizeWhile(c, b)
      case Block(ss) =>
        (match OptimizeStatements(ss)
         case Err(err) => Err(err)
         case Ok(ss') => Ok(Some(Block(ss'))))
      case PrintStmt(e) =>
        (match Optimize(e)
         case Err(err) => Err(err)
         case Ok(e') => Ok(Some(PrintStmt(e'))))
      case _ => Ok(p)
  }

  /** A BinaryExpr: both operands first, then folding when both became
   *  literals. */
  function OptimizeBinary(op: string, l: Ptr, r: Ptr): (res: Result<Ptr>)
    decreases Some(BinaryExpr(op, l, r)), 0
  {
    match Optimize(l)
    case Err(e) => Err(e)
    case Ok(l') =>
      match Optimize(r)
      case Err(e) => Err(e)
      case Ok(r') =>
        if IsLiteral(l') && IsLiteral(r') then Fold(op, l'.value.value, r'.value.value)
        else Ok(Some(BinaryExpr(op, l', r')))
  }

  /** An `if`: condition, then-branch and else-branch are all optimized
   *  before a literal condition selects one branch. */
  function OptimizeIf(c: Ptr, t: Ptr, e: Ptr): (res: Result<Ptr>)
    decreases Some(IfStmt(c, t, e)), 0
  {
    match Optimize(c)
    case Err(err) => Err(err)
    case Ok(c') =>
      match Optimize(t)
      case Err(err) => Err(err)
      case Ok(t') =>
        match Optimize(e)
        case Err(err) => Err(err)
        case Ok(e') =>
          if IsLiteral(c') then Ok(if c'.value.value != 0 then t' else e')
          else Ok(Some(IfStmt(c', t', e')))
  }

  /** A `while`: condition and body are optimized before a literal 0
   *  condition removes the loop. */
  function OptimizeWhile(c: Ptr, b: Ptr): (res: Result<Ptr>)
    decreases Some(WhileStmt(c, b)), 0
  {
    match Optimize(c)
    case Err(err) => Err(err)
    case Ok(c') =>
      match Optimize(b)
      case Err(err) => Err(err)
      case Ok(b') =>
        if c' == Some(Literal(0)) then Ok(None) else Ok(Some(WhileStmt(c', b')))
  }

  /** The loop of the Block case: the statements optimized in order, keeping
   *  the non-null results; the first statement that fails decides the
   *  error. */
  function OptimizeStatements(ss: seq<Ptr>): (r: Result<seq<Ptr>>)
    ensures r.Ok? ==> |r.value| <= |ss|
    decreases ss, 0
  {
    if ss == [] then Ok([])
    else
      match OptimizeStatements(ss[..|ss| - 1])
      case Err(err) => Err(err)
      case Ok(kept) =>
        match Optimize(ss[|ss| - 1])
        case Err(err) => Err(err)
        case Ok(x) => Ok(if x.Some? then kept + [x] else kept)
  }

  /** Once a prefix of the statements fails, the later statements do not
   *  change the error. */
  lemma {:induction false} FirstFailureDecides(ss: seq<Ptr>, i: nat)
    requires i <= |ss|
    requires OptimizeStatements(ss[..i]).Err?
    ensures OptimizeStatements(ss) == OptimizeStatements(ss[..i])
    decreases |ss| - i
  {
    if i < |ss| {
      var init := ss[..|ss| - 1];
      assert init[..i] == ss[..i];
      FirstFailureDecides(init, i);
    } else {
      assert ss[..i] == ss;
    }
  }

  /** `optimizeAST` itself: recursive, with the source's loop over a block's
   *  statements. */
  method OptimizeAST(p: Ptr) returns (r: Result<Ptr>)
    ensures r == Optimize(p)
    decreases p
  {
    if p.None? {
      return Ok(None);
    }
    match p.value
    case BinaryExpr(op, l, rt) =>
      var l' :- OptimizeAST(l);
      var r' :- OptimizeAST(rt);
      if IsLiteral(l') && IsLiteral(r') {
        r := Fold(op, l'.value.value, r'.value.value);
      } else {
        r := Ok(Some(BinaryExpr(op, l', r')));
      }
    case Assignment(name, e) =>
      var e' :- OptimizeAST(e);
      r := Ok(Some(Assignment(name, e')));
    case IfStmt(c, t, e) =>
      var c' :- OptimizeAST(c);
      var t' :- OptimizeAST(t);
      var e' :- OptimizeAST(e);
      if IsLiteral(c') {
        r := Ok(if c'.value.value != 0 then t' else e');
      } else {
        r := Ok(Some(IfStmt(c', t', e')));
      }
    case WhileStmt(c, b) =>
      var c' :- OptimizeAST(c);
      var b' :- OptimizeAST(b);
      if c' == Some(Literal(0)) {
        r := Ok(None);
      } else {
        r := Ok(Some(WhileStmt(c', b')));
      }
    case Block(ss) =>
      var kept: seq<Ptr> := [];
      var i := 0;
      while i < |ss|
        invariant 0 <= i <= |ss|
        invariant OptimizeStatements(ss[..i]) == Ok(kept)
      {
        var x := OptimizeAST(ss[i]);
        assert ss[..i + 1][..i] == ss[..i];
        if x.Err? {
          FirstFailureDecides(ss, i + 1);
          return Err(x.error);
        }
        if x.value.Some? {
          kept := kept + [x.value];
        }
        i := i + 1;
      }
      assert ss[..i] == ss;
      r := Ok(Some(Block(kept)));
    case PrintStmt(e) =>
      var e' :- OptimizeAST(e);
      r := Ok(Some(PrintStmt(e')));
    case _ =>
      r := Ok(p);
  }
}
