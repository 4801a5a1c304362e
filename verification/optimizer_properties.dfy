/** What `optimizeAST` guarantees: how it folds, which code it removes, what a
 *  block keeps, and that its results are exactly the trees it leaves
 *  unchanged, so that optimizing twice is optimizing once. */
module OptimizerProperties {
  import opened Base
  import opened MachineInt
  import opened Ast
  import opened Optimizer

  // ---------------------------------------------------------------------
  // Folding

  /** `+ - * /` over two operands that optimize to literals become one
   *  literal holding the 32-bit result. */
  lemma FoldsArithmetic(op: string, l: Ptr, r: Ptr, a: int32, b: int32)
    requires op in ArithOps
    requires Optimize(l) == Ok(Some(Literal(a))) && Optimize(r) == Ok(Some(Literal(b)))
    requires !(op == "/" && b == 0)
    requires InRange(Exact(ArithOpOf(op).value, a as int, b as int))
    ensures Optimize(Some(BinaryExpr(op, l, r))).Ok?
    ensures Optimize(Some(BinaryExpr(op, l, r))).value == Some(Literal(Exact(ArithOpOf(op).value, a as int, b as int) as int32))
  {
  }

  /** Folding a division by the literal 0 fails. */
  lemma FoldedDivisionByZeroFails(l: Ptr, r: Ptr, a: int32)
    requires Optimize(l) == Ok(Some(Literal(a))) && Optimize(r) == Ok(Some(Literal(0)))
    ensures Optimize(Some(BinaryExpr("/", l, r))) == Err(FoldDivisionByZero)
  {
  }

  /** Comparisons over two literals, and any operator over an operand that
   *  is not a literal, are rebuilt over the optimized operands. */
  lemma RebuildsUnfolded(op: string, l: Ptr, r: Ptr)
    requires Optimize(l).Ok? && Optimize(r).Ok?
    requires op !in ArithOps || !IsLiteral(Optimize(l).value) || !IsLiteral(Optimize(r).value)
    ensures Optimize(Some(BinaryExpr(op, l, r))) == Ok(Some(BinaryExpr(op, Optimize(l).value, Optimize(r).value)))
  {
  }

  // ---------------------------------------------------------------------
  // Dead code

  /** An `if` whose condition optimizes to a literal becomes one of its
   *  optimized branches: the then-branch for a nonzero literal, otherwise
   *  the else-branch, null when there is none. */
  lemma LiteralIfSelectsBranch(c: Ptr, t: Ptr, e: Ptr, v: int32)
    requires Optimize(c) == Ok(Some(Literal(v)))
    requires Optimize(t).Ok? && Optimize(e).Ok?
    ensures Optimize(Some(IfStmt(c, t, e))) == Ok(if v != 0 then Optimize(t).value else Optimize(e).value)
  {
  }

  /** A `while` whose condition optimizes to the literal 0 is removed. */
  lemma FalseWhileRemoved(c: Ptr, b: Ptr)
    requires Optimize(c) == Ok(Some(Literal(0)))
    requires Optimize(b).Ok?
    ensures Optimize(Some(WhileStmt(c, b))) == Ok(None)
  {
  }

  /** Every other `while`, a nonzero literal condition included, is kept with
   *  its parts optimized. */
  lemma OtherWhileKept(c: Ptr, b: Ptr)
    requires Optimize(c).Ok? && Optimize(b).Ok?
    requires Optimize(c).value != Some(Literal(0))
    ensures Optimize(Some(WhileStmt(c, b))) == Ok(Some(WhileStmt(Optimize(c).value, Optimize(b).value)))
  {
  }

  /** All children are optimized before the parent decides what to keep, so
   *  a child that fails makes the whole `if` or `while` fail, even a branch
   *  or body that is then discarded. */
  lemma DiscardedChildrenStillFail(c: Ptr, t: Ptr, e: Ptr)
    ensures Optimize(Some(IfStmt(c, t, e))).Ok? <==> Optimize(c).Ok? && Optimize(t).Ok? && Optimize(e).Ok?
    ensures Optimize(Some(WhileStmt(c, t))).Ok? <==> Optimize(c).Ok? && Optimize(t).Ok?
  {
  }

  /** `if (0) print 1/0;` is not removed quietly: the fold of its dead branch
   *  fails. */
  lemma DeadBranchDivisionFails()
    ensures Optimize(Some(IfStmt(Some(Literal(0)),
                                 Some(PrintStmt(Some(BinaryExpr("/", Some(Literal(1)), Some(Literal(0)))))),
                                 None)))
            == Err(FoldDivisionByZero)
  {
  }

  /** An omitted `else` and an empty `else` block are different trees, and
   *  the optimizer keeps them apart: `if (0)` leaves null for the first and
   *  the empty block for the second. */
  lemma AbsentElseIsNotEmptyBlock(t: Ptr)
    requires Optimize(t).Ok?
    ensures IfStmt(Some(Literal(0)), t, None) != IfStmt(Some(Literal(0)), t, Some(Block([])))
    ensures Optimize(Some(IfStmt(Some(Literal(0)), t, None))) == Ok(None)
    ensures Optimize(Some(IfStmt(Some(Literal(0)), t, Some(Block([]))))) == Ok(Some(Block([])))
  {
    var zero := Some(Literal(0));
    assert Optimize(zero) == Ok(zero);
    assert Optimize(None) == Ok(None);
    assert Optimize(Some(IfStmt(zero, t, None))) == OptimizeIf(zero, t, None);
    assert OptimizeStatements([]) == Ok([]);
    assert Optimize(Some(Block([]))) == Ok(Some(Block([])));
    assert Optimize(Some(IfStmt(zero, t, Some(Block([]))))) == OptimizeIf(zero, t, Some(Block([])));
  }

  // ---------------------------------------------------------------------
  // Blocks

  /** The present elements of a sequence of pointers, in order. */
  function NonNull(xs: seq<Ptr>): (r: seq<Ptr>)
    ensures |r| <= |xs|
    ensures forall i | 0 <= i < |r| :: r[i].Some?
  {
    if xs == [] then [] else (if xs[0].Some? then [xs[0]] else []) + NonNull(xs[1..])
  }

  /** Filtering a sequence extended by one element. */
  lemma {:induction false} NonNullSnoc(xs: seq<Ptr>, x: Ptr)
    ensures NonNull(xs + [x]) == NonNull(xs) + (if x.Some? then [x] else [])
    decreases |xs|
  {
    if xs == [] {
      assert [] + [x] == [x];
    } else {
      assert (xs + [x])[1..] == xs[1..] + [x];
      NonNullSnoc(xs[1..], x);
    }
  }

  /** Every statement of `ss` optimizes. */
  predicate AllOptimize(ss: seq<Ptr>) {
    forall i | 0 <= i < |ss| :: Optimize(ss[i]).Ok?
  }

  /** The optimized statements, one per statement, nulls included. */
  function OptimizeEach(ss: seq<Ptr>): (r: seq<Ptr>)
    requires AllOptimize(ss)
    ensures |r| == |ss|
    ensures forall i | 0 <= i < |ss| :: Optimize(ss[i]) == Ok(r[i])
  {
    seq(|ss|, i requires 0 <= i < |ss| => Optimize(ss[i]).value)
  }

  /** A block whose statements all optimize holds exactly the non-null
   *  optimized statements, in their original order. */
  lemma {:induction false} BlockKeepsNonNull(ss: seq<Ptr>)
    requires AllOptimize(ss)
    ensures OptimizeStatements(ss) == Ok(NonNull(OptimizeEach(ss)))
    ensures Optimize(Some(Block(ss))) == Ok(Some(Block(NonNull(OptimizeEach(ss)))))
    decreases |ss|
  {
    if ss != [] {
      var init := ss[..|ss| - 1];
      assert AllOptimize(init) by {
        forall i | 0 <= i < |init| ensures Optimize(init[i]).Ok? {
          assert init[i] == ss[i];
        }
      }
      BlockKeepsNonNull(init);
      var x := OptimizeEach(ss)[|ss| - 1];
      assert Optimize(ss[|ss| - 1]) == Ok(x);
      assert OptimizeEach(ss) == OptimizeEach(init) + [x];
      NonNullSnoc(OptimizeEach(init), x);
      var kept := NonNull(OptimizeEach(init));
      assert OptimizeStatements(ss) == Ok(if x.Some? then kept + [x] else kept);
      assert kept + [] == kept;
    }
  }

  /** A block fails with the error of its first failing statement. */
  lemma {:induction false} BlockFailsAtFirstFailure(ss: seq<Ptr>, i: nat)
    requires i < |ss|
    requires AllOptimize(ss[..i]) && Optimize(ss[i]).Err?
    ensures OptimizeStatements(ss) == Err(Optimize(ss[i]).error)
  {
    var pre := ss[..i + 1];
    assert pre[..i] == ss[..i];
    BlockKeepsNonNull(ss[..i]);
    assert OptimizeStatements(pre) == Err(Optimize(ss[i]).error);
    FirstFailureDecides(ss, i + 1);
  }

  // ---------------------------------------------------------------------
  // Fixpoints and idempotence

  /** The trees the optimizer leaves as they are: nothing foldable, no `if`
   *  with a literal condition, no `while` with the literal 0 as condition,
   *  no null statement in a block. */
  predicate Optimized(p: Ptr)
    decreases p
  {
    match p
    case None => true
    case Some(n) =>
      match n
      case Literal(_) => true
      case Identifier(_) => true
      case BinaryExpr(op, l, r) =>
        Optimized(l) && Optimized(r) && !(op in ArithOps && IsLiteral(l) && IsLiteral(r))
      case Assignment(_, e) => Optimized(e)
      case IfStmt(c, t, e) => !IsLiteral(c) && Optimized(c) && Optimized(t) && Optimized(e)
      case WhileStmt(c, b) => c != Some(Literal(0)) && Optimized(c) && Optimized(b)
      case Block(ss) => forall i | 0 <= i < |ss| :: ss[i].Some? && Optimized(ss[i])
      case PrintStmt(e) => Optimized(e)
  }

  /** Whatever the optimizer returns is optimized. */
  lemma {:induction false} OptimizeYieldsOptimized(p: Ptr)
    requires Optimize(p).Ok?
    ensures Optimized(Optimize(p).value)
    decreases p, 1
  {
    match p
    case None =>
    case Some(n) =>
      match n {
        case BinaryExpr(op, l, r) =>
          OptimizeYieldsOptimized(l);
          OptimizeYieldsOptimized(r);
        case Assignment(_, e) =>
          OptimizeYieldsOptimized(e);
        case IfStmt(c, t, e) =>
          OptimizeYieldsOptimized(c);
          OptimizeYieldsOptimized(t);
          OptimizeYieldsOptimized(e);
        case WhileStmt(c, b) =>
          OptimizeYieldsOptimized(c);
          OptimizeYieldsOptimized(b);
        case Block(ss) =>
          StatementsYieldOptimized(ss);
        case PrintStmt(e) =>
          OptimizeYieldsOptimized(e);
        case Literal(_) =>
        case Identifier(_) =>
      }
  }

  lemma {:induction false} StatementsYieldOptimized(ss: seq<Ptr>)
    requires OptimizeStatements(ss).Ok?
    ensures forall i | 0 <= i < |OptimizeStatements(ss).value| ::
      OptimizeStatements(ss).value[i].Some? && Optimized(OptimizeStatements(ss).value[i])
    decreases ss, 0
  {
    if ss != [] {
      StatementsYieldOptimized(ss[..|ss| - 1]);
      OptimizeYieldsOptimized(ss[|ss| - 1]);
    }
  }

  /** An optimized tree is left unchanged. */
  lemma {:induction false} OptimizedIsFixpoint(p: Ptr)
    requires Optimized(p)
    ensures Optimize(p) == Ok(p)
    decreases p, 1
  {
    match p
    case None =>
    case Some(n) =>
      match n {
        case BinaryExpr(op, l, r) =>
          OptimizedIsFixpoint(l);
          OptimizedIsFixpoint(r);
        case Assignment(_, e) =>
          OptimizedIsFixpoint(e);
        case IfStmt(c, t, e) =>
          OptimizedIsFixpoint(c);
          OptimizedIsFixpoint(t);
          OptimizedIsFixpoint(e);
        case WhileStmt(c, b) =>
          OptimizedIsFixpoint(c);
          OptimizedIsFixpoint(b);
        case Block(ss) =>
          OptimizedStatementsFixed(ss);
        case PrintStmt(e) =>
          OptimizedIsFixpoint(e);
        case Literal(_) =>
        case Identifier(_) =>
      }
  }

  lemma {:induction false} OptimizedStatementsFixed(ss: seq<Ptr>)
    requires forall i | 0 <= i < |ss| :: ss[i].Some? && Optimized(ss[i])
    ensures OptimizeStatements(ss) == Ok(ss)
    decreases ss, 0
  {
    if ss != [] {
      var init := ss[..|ss| - 1];
      assert forall i | 0 <= i < |init| :: init[i] == ss[i];
      OptimizedStatementsFixed(init);
      OptimizedIsFixpoint(ss[|ss| - 1]);
      assert init + [ss[|ss| - 1]] == ss;
    }
  }

  /** Optimizing an optimized tree changes nothing. */
  lemma Idempotent(p: Ptr)
    requires Optimize(p).Ok?
    ensures Optimize(Optimize(p).value) == Optimize(p)
  {
    OptimizeYieldsOptimized(p);
    OptimizedIsFixpoint(Optimize(p).value);
  }

  /** The number of nodes of a tree. */
  function Size(p: Ptr): nat
    decreases p, 1
  {
    match p
    case None => 0
    case Some(n) =>
      match n
      case Literal(_) => 1
      case Identifier(_) => 1
      case BinaryExpr(_, l, r) => 1 + Size(l) + Size(r)
      case Assignment(_, e) => 1 + Size(e)
      case IfStmt(c, t, e) => 1 + Size(c) + Size(t) + Size(e)
      case WhileStmt(c, b) => 1 + Size(c) + Size(b)
      case Block(ss) => 1 + SizeAll(ss)
      case PrintStmt(e) => 1 + Size(e)
  }

  function SizeAll(ss: seq<Ptr>): nat
    decreases ss, 0
  {
    if ss == [] then 0 else SizeAll(ss[..|ss| - 1]) + Size(ss[|ss| - 1])
  }

  /** The optimizer never makes a tree larger. */
  lemma {:induction false} OptimizeNeverGrows(p: Ptr)
    requires Optimize(p).Ok?
    ensures Size(Optimize(p).value) <= Size(p)
    decreases p, 1
  {
    match p
    case None =>
    case Some(n) =>
      match n {
        case BinaryExpr(op, l, r) =>
          OptimizeNeverGrows(l);
          OptimizeNeverGrows(r);
        case Assignment(_, e) =>
          OptimizeNeverGrows(e);
        case IfStmt(c, t, e) =>
          OptimizeNeverGrows(c);
          OptimizeNeverGrows(t);
          OptimizeNeverGrows(e);
        case WhileStmt(c, b) =>
          OptimizeNeverGrows(c);
          OptimizeNeverGrows(b);
        case Block(ss) =>
          StatementsNeverGrow(ss);
        case PrintStmt(e) =>
          OptimizeNeverGrows(e);
        case Literal(_) =>
        case Identifier(_) =>
      }
  }

  lemma {:induction false} StatementsNeverGrow(ss: seq<Ptr>)
    requires OptimizeStatements(ss).Ok?
    ensures SizeAll(OptimizeStatements(ss).value) <= SizeAll(ss)
    decreases ss, 0
  {
    if ss != [] {
      var init := ss[..|ss| - 1];
      StatementsNeverGrow(init);
      OptimizeNeverGrows(ss[|ss| - 1]);
      var kept := OptimizeStatements(init).value;
      var x := Optimize(ss[|ss| - 1]).value;
      if x.Some? {
        assert (kept + [x])[..|kept + [x]| - 1] == kept;
      }
    }
  }

  /** A block the optimizer leaves unchanged has no null statement, and
   *  every statement is itself left unchanged. */
  lemma {:induction false} FixedStatements(ss: seq<Ptr>)
    requires OptimizeStatements(ss) == Ok(ss)
    ensures forall i | 0 <= i < |ss| :: ss[i].Some? && Optimize(ss[i]) == Ok(ss[i])
    decreases |ss|
  {
    if ss != [] {
      var init := ss[..|ss| - 1];
      var kept := OptimizeStatements(init).value;
      var x := Optimize(ss[|ss| - 1]).value;
      assert x.Some? && kept + [x] == ss;
      assert kept == init;
      FixedStatements(init);
      assert forall i | 0 <= i < |init| :: init[i] == ss[i];
    }
  }

  /** The trees the optimizer leaves unchanged are exactly the optimized
   *  ones. */
  lemma {:induction false} FixpointsAreOptimized(p: Ptr)
    ensures Optimize(p) == Ok(p) <==> Optimized(p)
    decreases p
  {
    if Optimized(p) {
      OptimizedIsFixpoint(p);
    } else if Optimize(p) == Ok(p) {
      match p
      case None =>
      case Some(n) =>
        match n {
          case BinaryExpr(op, l, r) =>
            FixpointsAreOptimized(l);
            FixpointsAreOptimized(r);
          case Assignment(_, e) =>
            FixpointsAreOptimized(e);
          case IfStmt(c, t, e) =>
            assert Optimize(p) == OptimizeIf(c, t, e);
            if IsLiteral(Optimize(c).value) {
              // the result is a branch, smaller than the `if` itself
              OptimizeNeverGrows(t);
              OptimizeNeverGrows(e);
              assert false;
            }
            FixpointsAreOptimized(c);
            FixpointsAreOptimized(t);
            FixpointsAreOptimized(e);
          case WhileStmt(c, b) =>
            FixpointsAreOptimized(c);
            FixpointsAreOptimized(b);
          case Block(ss) =>
            FixedStatements(ss);
            forall i | 0 <= i < |ss| ensures Optimized(ss[i]) {
              FixpointsAreOptimized(ss[i]);
            }
          case PrintStmt(e) =>
            FixpointsAreOptimized(e);
          case Literal(_) =>
          case Identifier(_) =>
        }
    }
  }
}
