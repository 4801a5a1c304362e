/** What `Interpreter::eval` guarantees, stated on Semantics: which nodes
 *  fail and how, what the statements leave behind, and the facts that hold
 *  for every tree (expressions change nothing, successful evaluation keeps
 *  every variable an int, a loop ends on a false condition, more fuel never
 *  changes a finished result). */
module SemanticsProperties {
  import opened Base
  import opened MachineInt
  import opened Ast
  import opened Values
  import opened Semantics

  // ---------------------------------------------------------------------
  // Leaves and operators

  /** A literal is its int; a bound name is its stored value; an unbound
   *  name and a null node fail. */
  lemma Leaves(st: State, fuel: nat, v: int32, x: string)
    ensures Eval(Some(Literal(v)), st, fuel) == Done(IntVal(v), st)
    ensures x in st.vars ==> Eval(Some(Identifier(x)), st, fuel) == Done(st.vars[x], st)
    ensures x !in st.vars ==> Eval(Some(Identifier(x)), st, fuel) == Failed(UndefinedVariable(x), st)
    ensures Eval(None, st, fuel) == Failed(UnknownNode, st)
  {
  }

  /** The left operand is evaluated first: its failure is the failure of the
   *  whole, before the right operand is looked at. */
  lemma LeftOperandFirst(op: string, l: Ptr, r: Ptr, st: State, fuel: nat)
    requires Eval(l, st, fuel).Failed?
    ensures Eval(Some(BinaryExpr(op, l, r)), st, fuel) == Eval(l, st, fuel)
  {
  }

  /** An operator other than `+ - * / == < >`, such as `!=`, fails once both
   *  operands are evaluated, whatever their values. */
  lemma UnknownOperatorFails(op: string, l: Ptr, r: Ptr, st: State, fuel: nat)
    requires op !in ArithOps && op !in {"==", "<", ">"}
    requires Eval(l, st, fuel).Done? && Eval(r, Eval(l, st, fuel).st, fuel).Done?
    ensures Eval(Some(BinaryExpr(op, l, r)), st, fuel)
            == Failed(UnknownOperator(op), Eval(r, Eval(l, st, fuel).st, fuel).st)
  {
  }

  /** Every supported operator projects both operands to int, so an operand
   *  that is a bool (the result of a comparison) makes it fail. */
  lemma BoolOperandFails(op: string, l: Ptr, r: Ptr, st: State, fuel: nat)
    requires op in ArithOps || op in {"==", "<", ">"}
    requires Eval(l, st, fuel).Done? && Eval(r, Eval(l, st, fuel).st, fuel).Done?
    requires Eval(l, st, fuel).value.BoolVal? || Eval(r, Eval(l, st, fuel).st, fuel).value.BoolVal?
    ensures Eval(Some(BinaryExpr(op, l, r)), st, fuel)
            == Failed(TypeMismatch, Eval(r, Eval(l, st, fuel).st, fuel).st)
  {
  }

  /** `(a < b) + 1` fails even when `a` and `b` are bound ints. */
  lemma ComparisonPlusOneFails(st: State, fuel: nat)
    requires "a" in st.vars && "b" in st.vars
    requires st.vars["a"].IntVal? && st.vars["b"].IntVal?
    ensures Eval(Some(BinaryExpr("+", Some(BinaryExpr("<", Some(Identifier("a")), Some(Identifier("b")))),
                                      Some(Literal(1)))), st, fuel)
            == Failed(TypeMismatch, st)
  {
    var cmp := Some(BinaryExpr("<", Some(Identifier("a")), Some(Identifier("b"))));
    assert Eval(cmp, st, fuel) == Done(BoolVal(st.vars["a"].i < st.vars["b"].i), st);
  }

  // ---------------------------------------------------------------------
  // Statements

  /** An assignment stores the value of its right-hand side, creating or
   *  overwriting the variable, and yields it; a bool value is stored and
   *  then fails the int projection. */
  lemma AssignmentStores(x: string, e: Ptr, st: State, fuel: nat)
    requires Eval(e, st, fuel).Done?
    ensures var s := Eval(e, st, fuel).st;
            var v := Eval(e, st, fuel).value;
            Eval(Some(Assignment(x, e)), st, fuel)
            == (if v.IntVal? then Done(v, s.(vars := s.vars[x := v]))
                else Failed(TypeMismatch, s.(vars := s.vars[x := v])))
  {
  }

  /** A condition that is not a bool, `if (x)` with an int `x` say, fails
   *  the `if` and the `while`. */
  lemma IntConditionFails(c: Ptr, t: Ptr, e: Ptr, st: State, fuel: nat)
    requires Eval(c, st, fuel).Done? && Eval(c, st, fuel).value.IntVal?
    ensures Eval(Some(IfStmt(c, t, e)), st, fuel) == Failed(TypeMismatch, Eval(c, st, fuel).st)
    ensures Eval(Some(WhileStmt(c, t)), st, fuel) == Failed(TypeMismatch, Eval(c, st, fuel).st)
  {
  }

  /** A true condition runs the then-branch; a false one runs the else-branch
   *  when there is one, and otherwise yields the int 0 and changes nothing
   *  more. */
  lemma IfSelects(c: Ptr, t: Ptr, e: Ptr, st: State, fuel: nat, b: bool)
    requires Eval(c, st, fuel).Done? && Eval(c, st, fuel).value == BoolVal(b)
    ensures var s := Eval(c, st, fuel).st;
            Eval(Some(IfStmt(c, t, e)), st, fuel)
            == (if b then Eval(t, s, fuel) else if e.Some? then Eval(e, s, fuel) else Done(IntVal(0), s))
  {
  }

  /** The default value appears where nothing runs: an empty block and a loop
   *  whose condition is false at once both yield the int 0. */
  lemma NothingRunYieldsZero(c: Ptr, b: Ptr, st: State, fuel: nat)
    ensures Eval(Some(Block([])), st, fuel) == Done(IntVal(0), st)
    ensures Eval(c, st, fuel) == Done(BoolVal(false), Eval(c, st, fuel).st) ==>
      Eval(Some(WhileStmt(c, b)), st, fuel) == Done(IntVal(0), Eval(c, st, fuel).st)
  {
  }

  /** `print` appends its int to the output and yields it; a bool fails,
   *  with nothing printed. */
  lemma PrintAppends(e: Ptr, st: State, fuel: nat)
    requires Eval(e, st, fuel).Done?
    ensures var s := Eval(e, st, fuel).st;
            var v := Eval(e, st, fuel).value;
            Eval(Some(PrintStmt(e)), st, fuel)
            == (if v.IntVal? then Done(v, s.(out := s.out + [v.i])) else Failed(TypeMismatch, s))
  {
  }

  /** A block runs its statements in order and yields the value of the last:
   *  running `ss + [x]` is running `ss`, then `x`, then the int check. */
  lemma {:induction false} BlockAppend(ss: seq<Ptr>, x: Ptr, st: State, last: Value, fuel: nat)
    ensures EvalStatements(ss + [x], st, last, fuel)
            == match EvalStatements(ss, st, last, fuel)
               case Failed(e, s) => Failed(e, s)
               case Done(_, s) =>
                 match Eval(x, s, fuel)
                 case Failed(e, s2) => Failed(e, s2)
                 case Done(v, s2) => if AllInts(s2.vars) then Done(v, s2) else Failed(TypeMismatch, s2)
    decreases |ss|
  {
    if ss == [] {
      assert [] + [x] == [x];
      assert [x][1..] == [];
    } else {
      assert (ss + [x])[0] == ss[0];
      assert (ss + [x])[1..] == ss[1..] + [x];
      match Eval(ss[0], st, fuel)
      case Failed(_, _) =>
      case Done(v, s) =>
        if AllInts(s.vars) {
          BlockAppend(ss[1..], x, s, v, fuel);
        }
    }
  }

  /** After a statement that leaves a bool variable behind, the block
   *  fails. */
  lemma BoolVariableFailsBlock(x: Ptr, rest: seq<Ptr>, st: State, fuel: nat, name: string)
    requires Eval(x, st, fuel).Done?
    requires name in Eval(x, st, fuel).st.vars && Eval(x, st, fuel).st.vars[name].BoolVal?
    ensures Eval(Some(Block([x] + rest)), st, fuel) == Failed(TypeMismatch, Eval(x, st, fuel).st)
  {
    assert ([x] + rest)[0] == x;
  }

  // ---------------------------------------------------------------------
  // Facts about every tree

  /** Evaluating an expression the parser builds changes no variable and
   *  prints nothing. */
  lemma {:induction false} ExpressionsArePure(n: Node, st: State, fuel: nat)
    requires IsExpr(n)
    ensures Eval(Some(n), st, fuel).st == st
    decreases n
  {
    match n
    case BinaryExpr(op, l, r) =>
      ExpressionsArePure(l.value, st, fuel);
      ExpressionsArePure(r.value, st, fuel);
    case Literal(_) =>
    case Identifier(_) =>
  }

  /** Evaluation that succeeds from a state where every variable is an int
   *  ends in such a state: only a failed assignment can store a bool. */
  lemma {:induction false} DoneKeepsInts(p: Ptr, st: State, fuel: nat)
    requires AllInts(st.vars)
    requires Eval(p, st, fuel).Done?
    ensures AllInts(Eval(p, st, fuel).st.vars)
    decreases p, 1, 0
  {
    match p
    case None =>
    case Some(n) =>
      match n {
        case BinaryExpr(op, l, r) =>
          DoneKeepsInts(l, st, fuel);
          DoneKeepsInts(r, Eval(l, st, fuel).st, fuel);
        case Literal(_) =>
        case Identifier(_) =>
        case Assignment(x, e) =>
          DoneKeepsInts(e, st, fuel);
        case IfStmt(c, t, e) =>
          DoneKeepsInts(c, st, fuel);
          var s := Eval(c, st, fuel).st;
          if Eval(c, st, fuel).value == BoolVal(true) {
            DoneKeepsInts(t, s, fuel);
          } else if e.Some? {
            DoneKeepsInts(e, s, fuel);
          }
        case Block(ss) =>
          StatementsKeepInts(ss, st, DefaultValue, fuel);
        case WhileStmt(c, b) =>
          LoopKeepsInts(c, b, st, DefaultValue, fuel, fuel);
        case PrintStmt(e) =>
          DoneKeepsInts(e, st, fuel);
      }
  }

  lemma {:induction false} StatementsKeepInts(ss: seq<Ptr>, st: State, last: Value, fuel: nat)
    requires AllInts(st.vars)
    requires EvalStatements(ss, st, last, fuel).Done?
    ensures AllInts(EvalStatements(ss, st, last, fuel).st.vars)
    decreases ss, 0, 0
  {
    if ss != [] {
      var o := Eval(ss[0], st, fuel);
      StatementsKeepInts(ss[1..], o.st, o.value, fuel);
    }
  }

  lemma {:induction false} LoopKeepsInts(c: Ptr, b: Ptr, st: State, last: Value, fuel: nat, left: nat)
    requires AllInts(st.vars)
    requires Loop(c, b, st, last, fuel, left).Done?
    ensures AllInts(Loop(c, b, st, last, fuel, left).st.vars)
    decreases Some(WhileStmt(c, b)), 0, left
  {
    DoneKeepsInts(c, st, fuel);
    var s := Eval(c, st, fuel).st;
    if Eval(c, st, fuel).value == BoolVal(true) && left > 0 {
      var o := Eval(b, s, fuel);
      LoopKeepsInts(c, b, o.st, o.value, fuel, left - 1);
    }
  }

  /** So the int check of `evalBlock` and `evalWhileStmt` never fires in a
   *  fresh interpreter: a block that fails there was already failing. */
  lemma FreshRunNeverFailsCheck(x: Ptr, fuel: nat)
    requires Eval(x, Initial, fuel).Done?
    ensures AllInts(Eval(x, Initial, fuel).st.vars)
  {
    DoneKeepsInts(x, Initial, fuel);
  }

  /** A loop over a parser-built condition that finishes leaves a state in
   *  which its condition is false. */
  lemma {:induction false} LoopEndsOnFalse(c: Ptr, b: Ptr, st: State, last: Value, fuel: nat, left: nat)
    requires c.Some? && IsExpr(c.value)
    requires Loop(c, b, st, last, fuel, left).Done?
    ensures var s := Loop(c, b, st, last, fuel, left).st;
            Eval(c, s, fuel) == Done(BoolVal(false), s)
    decreases left
  {
    ExpressionsArePure(c.value, st, fuel);
    if Eval(c, st, fuel).value == BoolVal(true) {
      var o := Eval(b, st, fuel);
      LoopEndsOnFalse(c, b, o.st, o.value, fuel, left - 1);
    }
  }

  /** More fuel never changes the result of an evaluation that finished:
   *  the bound on loop passes only cuts off runs that need more. */
  lemma {:induction false} FuelMonotone(p: Ptr, st: State, fuel: nat, more: nat)
    requires fuel <= more
    requires Eval(p, st, fuel) != Failed(OutOfFuel, Eval(p, st, fuel).st)
    ensures Eval(p, st, more) == Eval(p, st, fuel)
    decreases p, 1, 0
  {
    match p
    case None =>
    case Some(n) =>
      match n {
        case BinaryExpr(op, l, r) =>
          FuelMonotone(l, st, fuel, more);
          if Eval(l, st, fuel).Done? {
            FuelMonotone(r, Eval(l, st, fuel).st, fuel, more);
          }
        case Literal(_) =>
        case Identifier(_) =>
        case Assignment(x, e) =>
          FuelMonotone(e, st, fuel, more);
        case IfStmt(c, t, e) =>
          FuelMonotone(c, st, fuel, more);
          var o := Eval(c, st, fuel);
          if o == Done(BoolVal(true), o.st) {
            FuelMonotone(t, o.st, fuel, more);
          } else if o == Done(BoolVal(false), o.st) && e.Some? {
            FuelMonotone(e, o.st, fuel, more);
          }
        case Block(ss) =>
          StatementsFuelMonotone(ss, st, DefaultValue, fuel, more);
        case WhileStmt(c, b) =>
          LoopFuelMonotone(c, b, st, DefaultValue, fuel, more, fuel, more);
        case PrintStmt(e) =>
          FuelMonotone(e, st, fuel, more);
      }
  }

  lemma {:induction false} StatementsFuelMonotone(ss: seq<Ptr>, st: State, last: Value, fuel: nat, more: nat)
    requires fuel <= more
    requires EvalStatements(ss, st, last, fuel) != Failed(OutOfFuel, EvalStatements(ss, st, last, fuel).st)
    ensures EvalStatements(ss, st, last, more) == EvalStatements(ss, st, last, fuel)
    decreases ss, 0, 0
  {
    if ss != [] {
      FuelMonotone(ss[0], st, fuel, more);
      var o := Eval(ss[0], st, fuel);
      if o.Done? && AllInts(o.st.vars) {
        StatementsFuelMonotone(ss[1..], o.st, o.value, fuel, more);
      }
    }
  }

  lemma {:induction false} LoopFuelMonotone(c: Ptr, b: Ptr, st: State, last: Value,
                                            fuel: nat, more: nat, left: nat, moreLeft: nat)
    requires fuel <= more && left <= moreLeft
    requires Loop(c, b, st, last, fuel, left) != Failed(OutOfFuel, Loop(c, b, st, last, fuel, left).st)
    ensures Loop(c, b, st, last, more, moreLeft) == Loop(c, b, st, last, fuel, left)
    decreases Some(WhileStmt(c, b)), 0, left
  {
    FuelMonotone(c, st, fuel, more);
    var o := Eval(c, st, fuel);
    if o == Done(BoolVal(true), o.st) && left > 0 {
      FuelMonotone(b, o.st, fuel, more);
      var o2 := Eval(b, o.st, fuel);
      if o2.Done? && AllInts(o2.st.vars) {
        LoopFuelMonotone(c, b, o2.st, o2.value, fuel, more, left - 1, moreLeft - 1);
      }
    }
  }
}
