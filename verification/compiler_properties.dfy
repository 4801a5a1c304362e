/** The labels of compiled code (ir.h:188-243): every label the code of a
 *  tree defines is built from a counter value the compiler took for that
 *  tree, every label a JZ or JMP names is defined in the same code, and no
 *  label is defined twice.  So the label map of `IRVM::run` sends every
 *  jump of a compiled program to its own LABEL. */
module CompilerProperties {
  import opened Base
  import opened Decimal
  import opened Ast
  import opened Ir
  import opened Compiler
  import opened Vm
  import opened VmProperties

  // ---------------------------------------------------------------------
  // Labels defined and used

  /** The names of the LABEL instructions of `code`. */
  function Defined(code: seq<IRInstr>): set<string> {
    if code == [] then {}
    else (if code[0].op == LABEL then {code[0].arg} else {}) + Defined(code[1..])
  }

  /** The names JZ and JMP instructions of `code` jump to. */
  function Used(code: seq<IRInstr>): set<string> {
    if code == [] then {}
    else (if code[0].op == JZ || code[0].op == JMP then {code[0].arg} else {}) + Used(code[1..])
  }

  /** No two LABEL instructions of `code` have the same name. */
  predicate Unique(code: seq<IRInstr>) {
    code == [] || ((code[0].op == LABEL ==> code[0].arg !in Defined(code[1..])) && Unique(code[1..]))
  }

  lemma {:induction false} DefinedAppend(a: seq<IRInstr>, b: seq<IRInstr>)
    ensures Defined(a + b) == Defined(a) + Defined(b)
    decreases |a|
  {
    if a == [] {
      assert a + b == b;
    } else {
      assert (a + b)[1..] == a[1..] + b;
      DefinedAppend(a[1..], b);
    }
  }

  lemma {:induction false} UsedAppend(a: seq<IRInstr>, b: seq<IRInstr>)
    ensures Used(a + b) == Used(a) + Used(b)
    decreases |a|
  {
    if a == [] {
      assert a + b == b;
    } else {
      assert (a + b)[1..] == a[1..] + b;
      UsedAppend(a[1..], b);
    }
  }

  /** Code without a repeated label, followed by more such code defining
   *  other names, has no repeated label. */
  lemma {:induction false} UniqueAppend(a: seq<IRInstr>, b: seq<IRInstr>)
    requires Unique(a) && Unique(b) && Defined(a) !! Defined(b)
    ensures Unique(a + b)
    decreases |a|
  {
    if a == [] {
      assert a + b == b;
    } else {
      assert (a + b)[1..] == a[1..] + b;
      DefinedAppend(a[1..], b);
      UniqueAppend(a[1..], b);
    }
  }

  /** A name is in Defined exactly when some LABEL instruction has it. */
  lemma {:induction false} DefinedMeans(code: seq<IRInstr>, k: string)
    ensures k in Defined(code) <==> exists i :: 0 <= i < |code| && code[i] == IRInstr(LABEL, k)
    decreases |code|
  {
    if code != [] {
      DefinedMeans(code[1..], k);
      if k in Defined(code[1..]) {
        var i :| 0 <= i < |code[1..]| && code[1..][i] == IRInstr(LABEL, k);
        assert code[i + 1] == IRInstr(LABEL, k);
      }
      if exists i :: 0 <= i < |code| && code[i] == IRInstr(LABEL, k) {
        var i :| 0 <= i < |code| && code[i] == IRInstr(LABEL, k);
        if i > 0 {
          assert code[1..][i - 1] == IRInstr(LABEL, k);
        }
      }
    }
  }

  /** Every JZ and JMP target is in Used. */
  lemma {:induction false} UsedHasTargets(code: seq<IRInstr>, i: nat)
    requires i < |code| && (code[i].op == JZ || code[i].op == JMP)
    ensures code[i].arg in Used(code)
    decreases i
  {
    if i > 0 {
      assert code[1..][i - 1] == code[i];
      UsedHasTargets(code[1..], i - 1);
    }
  }

  /** In code without a repeated label, a LABEL instruction is the only one
   *  of its name. */
  lemma {:induction false} UniqueMeansDistinct(code: seq<IRInstr>, i: nat, j: nat)
    requires Unique(code) && i < |code| && j < |code|
    requires code[i].op == LABEL && code[j] == code[i]
    ensures i == j
    decreases |code|
  {
    if i != j {
      if i == 0 || j == 0 {
        var k := if i == 0 then j else i;
        assert code[1..][k - 1] == code[0];
        DefinedMeans(code[1..], code[0].arg);
      } else {
        assert code[1..][i - 1] == code[i] && code[1..][j - 1] == code[j];
        UniqueMeansDistinct(code[1..], i - 1, j - 1);
      }
    }
  }

  // ---------------------------------------------------------------------
  // Label names

  /** The three label prefixes. */
  predicate IsPrefix(pre: string) {
    pre == ElsePrefix || pre == EndPrefix || pre == StartPrefix
  }

  /** The labels made from counter values in `lo..hi`. */
  function Names(lo: nat, hi: nat): set<string>
    decreases hi - lo
  {
    if hi <= lo then {}
    else {LabelName(ElsePrefix, lo), LabelName(EndPrefix, lo), LabelName(StartPrefix, lo)} + Names(lo + 1, hi)
  }

  /** Different prefixes or different numbers make different labels. */
  lemma LabelNameInjective(p1: string, n1: nat, p2: string, n2: nat)
    requires IsPrefix(p1) && IsPrefix(p2) && LabelName(p1, n1) == LabelName(p2, n2)
    ensures p1 == p2 && n1 == n2
  {
    assert LabelName(p1, n1)[3] == p1[3] && LabelName(p2, n2)[3] == p2[3];
    assert p1 == p2;
    assert LabelName(p1, n1)[|p1|..] == NatToString(n1);
    assert LabelName(p2, n2)[|p2|..] == NatToString(n2);
    NatToStringInjective(n1, n2);
  }

  /** Every name in Names(lo, hi) is a label with a number in `lo..hi`. */
  lemma {:induction false} NamesNumber(x: string, lo: nat, hi: nat) returns (pre: string, n: nat)
    requires x in Names(lo, hi)
    ensures IsPrefix(pre) && lo <= n < hi && x == LabelName(pre, n)
    decreases hi - lo
  {
    if x == LabelName(ElsePrefix, lo) {
      pre, n := ElsePrefix, lo;
    } else if x == LabelName(EndPrefix, lo) {
      pre, n := EndPrefix, lo;
    } else if x == LabelName(StartPrefix, lo) {
      pre, n := StartPrefix, lo;
    } else {
      pre, n := NamesNumber(x, lo + 1, hi);
    }
  }

  /** And every such label is in Names(lo, hi). */
  lemma {:induction false} NameInNames(pre: string, n: nat, lo: nat, hi: nat)
    requires IsPrefix(pre) && lo <= n < hi
    ensures LabelName(pre, n) in Names(lo, hi)
    decreases hi - lo
  {
    if n > lo {
      NameInNames(pre, n, lo + 1, hi);
    }
  }

  /** A label whose number is outside `lo..hi` is not in Names(lo, hi). */
  lemma NameOutside(pre: string, n: nat, lo: nat, hi: nat)
    requires IsPrefix(pre) && (n < lo || hi <= n)
    ensures LabelName(pre, n) !in Names(lo, hi)
  {
    if LabelName(pre, n) in Names(lo, hi) {
      var p, k := NamesNumber(LabelName(pre, n), lo, hi);
      LabelNameInjective(pre, n, p, k);
    }
  }

  /** A wider range has more names. */
  lemma NamesWiden(lo: nat, hi: nat, lo': nat, hi': nat)
    requires lo' <= lo && hi <= hi'
    ensures Names(lo, hi) <= Names(lo', hi')
  {
    forall x | x in Names(lo, hi)
      ensures x in Names(lo', hi')
    {
      var pre, n := NamesNumber(x, lo, hi);
      NameInNames(pre, n, lo', hi');
    }
  }

  /** Ranges that do not overlap have no name in common. */
  lemma NamesDisjoint(a: nat, b: nat, c: nat, d: nat)
    requires b <= c
    ensures Names(a, b) !! Names(c, d)
  {
    forall x | x in Names(a, b) && x in Names(c, d)
      ensures false
    {
      var p1, n1 := NamesNumber(x, a, b);
      var p2, n2 := NamesNumber(x, c, d);
      LabelNameInjective(p1, n1, p2, n2);
    }
  }

  // ---------------------------------------------------------------------
  // Compiled code

  /** The labels of `code` all have numbers in `lo..hi`, every jump target
   *  is defined in `code`, and no label is defined twice. */
  predicate WellLabelled(code: seq<IRInstr>, lo: nat, hi: nat) {
    Defined(code) <= Names(lo, hi) && Used(code) <= Defined(code) && Unique(code)
  }

  /** Code without LABEL, JZ or JMP is well labelled in any range. */
  lemma Unlabelled(code: seq<IRInstr>, lo: nat, hi: nat)
    requires |code| <= 1 && forall i | 0 <= i < |code| :: code[i].op != LABEL && code[i].op != JZ && code[i].op != JMP
    ensures WellLabelled(code, lo, hi)
  {
  }

  /** Well labelled code with numbers in `lo..mid`, then well labelled code
   *  with numbers in `mid..hi`. */
  lemma Sequence(a: seq<IRInstr>, b: seq<IRInstr>, lo: nat, mid: nat, hi: nat)
    requires lo <= mid <= hi && WellLabelled(a, lo, mid) && WellLabelled(b, mid, hi)
    ensures WellLabelled(a + b, lo, hi)
  {
    DefinedAppend(a, b);
    UsedAppend(a, b);
    NamesDisjoint(lo, mid, mid, hi);
    UniqueAppend(a, b);
    NamesWiden(lo, mid, lo, hi);
    NamesWiden(mid, hi, lo, hi);
  }

  /** The code of a tree compiled with label counter `lc` is well labelled
   *  in `lc..next`. */
  lemma {:induction false} CompiledLabels(p: Ptr, lc: nat)
    ensures WellLabelled(Compile(p, lc).code, lc, Compile(p, lc).next)
    decreases p, 1
  {
    if p.None? || p.value.Literal? || p.value.Identifier? {
      LeafLabels(p, lc);
    } else if p.value.Block? {
      BlockLabels(p.value.statements, lc);
    } else if p.value.Assignment? || p.value.PrintStmt? {
      SuffixedLabels(p, lc);
    } else if p.value.BinaryExpr? {
      BinaryLabels(p, lc);
    } else if p.value.IfStmt? {
      IfLabels(p.value.condition, p.value.thenBranch, p.value.elseBranch, lc);
    } else {
      WhileLabels(p.value.condition, p.value.body, lc);
    }
  }

  /** A missing tree, a literal and an identifier have no label and no jump. */
  lemma LeafLabels(p: Ptr, lc: nat)
    requires p.None? || p.value.Literal? || p.value.Identifier?
    ensures WellLabelled(Compile(p, lc).code, lc, Compile(p, lc).next)
  {
    if p.Some? {
      Unlabelled(Compile(p, lc).code, lc, lc);
    }
  }

  /** An assignment or a print: its expression's code, then one
   *  instruction that is no label and no jump. */
  lemma {:induction false} SuffixedLabels(p: Ptr, lc: nat)
    requires p.Some? && (p.value.Assignment? || p.value.PrintStmt?)
    ensures WellLabelled(Compile(p, lc).code, lc, Compile(p, lc).next)
    decreases p, 0
  {
    var e := if p.value.Assignment? then p.value.rhs else p.value.expr;
    var tail := if p.value.Assignment? then [IRInstr(STORE, p.value.name)] else [Plain(PRINT)];
    var v := Compile(e, lc);
    assert Compile(p, lc) == Compiled(v.code + tail, v.next);
    CompiledLabels(e, lc);
    Unlabelled(tail, v.next, v.next);
    Sequence(v.code, tail, lc, v.next, v.next);
  }

  /** A binary expression: the code of both operands, then the operator. */
  lemma {:induction false} BinaryLabels(p: Ptr, lc: nat)
    requires p.Some? && p.value.BinaryExpr?
    ensures WellLabelled(Compile(p, lc).code, lc, Compile(p, lc).next)
    decreases p, 0
  {
    var a := Compile(p.value.left, lc);
    var b := Compile(p.value.right, a.next);
    assert Compile(p, lc) == Compiled(a.code + b.code + OperatorCode(p.value.op), b.next);
    CompiledLabels(p.value.left, lc);
    CompiledLabels(p.value.right, a.next);
    Sequence(a.code, b.code, lc, a.next, b.next);
    Unlabelled(OperatorCode(p.value.op), b.next, b.next);
    Sequence(a.code + b.code, OperatorCode(p.value.op), lc, b.next, b.next);
  }

  lemma {:induction false} BlockLabels(ss: seq<Ptr>, lc: nat)
    ensures var c := CompileAll(ss, lc); WellLabelled(c.code, lc, c.next)
    decreases ss, 0
  {
    if ss != [] {
      var init := CompileAll(ss[..|ss| - 1], lc);
      BlockLabels(ss[..|ss| - 1], lc);
      CompiledLabels(ss[|ss| - 1], init.next);
      var last := Compile(ss[|ss| - 1], init.next);
      Sequence(init.code, last.code, lc, init.next, last.next);
    }
  }

  lemma {:induction false} IfLabels(c: Ptr, t: Ptr, e: Ptr, lc: nat)
    ensures var k := IfCode(c, t, e, lc); WellLabelled(k.code, lc, k.next)
    decreases Some(IfStmt(c, t, e)), 0
  {
    var cc := Compile(c, lc + 2);
    var tc := Compile(t, cc.next);
    var ec := if e.Some? then Compile(e, tc.next) else Compiled([], tc.next);
    CompiledLabels(c, lc + 2);
    CompiledLabels(t, cc.next);
    if e.Some? {
      CompiledLabels(e, tc.next);
    }
    IfLayout(cc.code, tc.code, ec.code, lc, cc.next, tc.next, ec.next);
  }

  /** Code with no repeated label, then more such code defining other
   *  names: the labels of both, the targets of both, none repeated. */
  lemma Join(a: seq<IRInstr>, b: seq<IRInstr>)
    requires Unique(a) && Unique(b) && Defined(a) !! Defined(b)
    ensures Defined(a + b) == Defined(a) + Defined(b)
    ensures Used(a + b) == Used(a) + Used(b)
    ensures Unique(a + b)
  {
    DefinedAppend(a, b);
    UsedAppend(a, b);
    UniqueAppend(a, b);
  }

  /** The labels and targets of one instruction. */
  lemma Single(i: IRInstr)
    ensures Defined([i]) == if i.op == LABEL then {i.arg} else {}
    ensures Used([i]) == if i.op == JZ || i.op == JMP then {i.arg} else {}
    ensures Unique([i])
  {
    assert [i][1..] == [];
  }

  /** A jump followed by a label. */
  lemma Pair(jump: IRInstr, mark: IRInstr)
    requires jump.op == JMP && mark.op == LABEL
    ensures Defined([jump, mark]) == {mark.arg} && Used([jump, mark]) == {jump.arg} && Unique([jump, mark])
  {
    assert [jump, mark][1..] == [mark];
    Single(mark);
  }

  /** Three pieces of code with no repeated label and no name in common. */
  lemma Join3(a: seq<IRInstr>, b: seq<IRInstr>, c: seq<IRInstr>)
    requires Unique(a) && Unique(b) && Unique(c)
    requires Defined(a) !! Defined(b) && Defined(a) !! Defined(c) && Defined(b) !! Defined(c)
    ensures Defined(a + b + c) == Defined(a) + Defined(b) + Defined(c)
    ensures Used(a + b + c) == Used(a) + Used(b) + Used(c)
    ensures Unique(a + b + c)
  {
    Join(a, b);
    Join(a + b, c);
  }

  /** The labels of code in `lo..hi` are none of those a construct at `lc`
   *  makes itself when `lc + 2 <= lo`, and are among those of `lc..top`. */
  lemma Inner(code: seq<IRInstr>, lc: nat, lo: nat, hi: nat, top: nat)
    requires lc + 2 <= lo && hi <= top && Defined(code) <= Names(lo, hi)
    ensures forall pre | IsPrefix(pre) :: LabelName(pre, lc) !in Defined(code) && LabelName(pre, lc + 1) !in Defined(code)
    ensures Defined(code) <= Names(lc, top)
  {
    forall pre | IsPrefix(pre)
      ensures LabelName(pre, lc) !in Defined(code) && LabelName(pre, lc + 1) !in Defined(code)
    {
      NameOutside(pre, lc, lo, hi);
      NameOutside(pre, lc + 1, lo, hi);
    }
    NamesWiden(lo, hi, lc, top);
  }

  /** The two labels a construct at `lc` makes, with different prefixes. */
  lemma Own(p1: string, p2: string, lc: nat, hi: nat)
    requires IsPrefix(p1) && IsPrefix(p2) && p1 != p2 && lc + 2 <= hi
    ensures LabelName(p1, lc) != LabelName(p2, lc + 1)
    ensures LabelName(p1, lc) in Names(lc, hi) && LabelName(p2, lc + 1) in Names(lc, hi)
  {
    if LabelName(p1, lc) == LabelName(p2, lc + 1) {
      LabelNameInjective(p1, lc, p2, lc + 1);
    }
    NameInNames(p1, lc, lc, hi);
    NameInNames(p2, lc + 1, lc, hi);
  }

  /** The layout of an `if` around well labelled parts. */
  lemma IfLayout(cc: seq<IRInstr>, tc: seq<IRInstr>, ec: seq<IRInstr>, lc: nat, m1: nat, m2: nat, hi: nat)
    requires lc + 2 <= m1 <= m2 <= hi
    requires WellLabelled(cc, lc + 2, m1) && WellLabelled(tc, m1, m2) && WellLabelled(ec, m2, hi)
    ensures var elseLabel, endLabel := LabelName(ElsePrefix, lc), LabelName(EndPrefix, lc + 1);
      WellLabelled(cc + [IRInstr(JZ, elseLabel)] + tc + [IRInstr(JMP, endLabel), IRInstr(LABEL, elseLabel)]
                   + ec + [IRInstr(LABEL, endLabel)], lc, hi)
  {
    Inner(cc, lc, lc + 2, m1, hi);
    Inner(tc, lc, m1, m2, hi);
    Inner(ec, lc, m2, hi, hi);
    Own(ElsePrefix, EndPrefix, lc, hi);
    NamesDisjoint(lc + 2, m1, m1, m2);
    NamesDisjoint(lc + 2, m1, m2, hi);
    NamesDisjoint(m1, m2, m2, hi);
    IfSets(cc, tc, ec, LabelName(ElsePrefix, lc), LabelName(EndPrefix, lc + 1), Names(lc, hi));
  }

  /** An `if` layout around pieces with labels in `names` is well labelled
   *  in `names`. */
  lemma IfSets(cc: seq<IRInstr>, tc: seq<IRInstr>, ec: seq<IRInstr>, elseLabel: string, endLabel: string,
               names: set<string>)
    requires Unique(cc) && Unique(tc) && Unique(ec)
    requires Defined(cc) !! Defined(tc) && Defined(cc) !! Defined(ec) && Defined(tc) !! Defined(ec)
    requires elseLabel !in Defined(cc) && elseLabel !in Defined(tc) && elseLabel !in Defined(ec)
    requires endLabel !in Defined(cc) && endLabel !in Defined(tc) && endLabel !in Defined(ec)
    requires elseLabel != endLabel && elseLabel in names && endLabel in names
    requires Defined(cc) <= names && Defined(tc) <= names && Defined(ec) <= names
    requires Used(cc) <= Defined(cc) && Used(tc) <= Defined(tc) && Used(ec) <= Defined(ec)
    ensures var code := cc + [IRInstr(JZ, elseLabel)] + tc + [IRInstr(JMP, endLabel), IRInstr(LABEL, elseLabel)]
                        + ec + [IRInstr(LABEL, endLabel)];
      Defined(code) <= names && Used(code) <= Defined(code) && Unique(code)
  {
    var front := cc + [IRInstr(JZ, elseLabel)] + tc;
    Single(IRInstr(JZ, elseLabel));
    Join3(cc, [IRInstr(JZ, elseLabel)], tc);
    IfBack(front, ec, elseLabel, endLabel, names);
  }

  /** The second half of an `if` layout: the JMP to its end, the LABEL of
   *  its else part, that part, and the LABEL of its end. */
  lemma IfBack(front: seq<IRInstr>, ec: seq<IRInstr>, elseLabel: string, endLabel: string, names: set<string>)
    requires Unique(front) && Unique(ec) && Defined(front) !! Defined(ec)
    requires elseLabel !in Defined(front) && elseLabel !in Defined(ec)
    requires endLabel !in Defined(front) && endLabel !in Defined(ec)
    requires elseLabel != endLabel && elseLabel in names && endLabel in names
    requires Defined(front) <= names && Defined(ec) <= names
    requires Used(front) <= Defined(front) + {elseLabel} && Used(ec) <= Defined(ec)
    ensures var code := front + [IRInstr(JMP, endLabel), IRInstr(LABEL, elseLabel)] + ec + [IRInstr(LABEL, endLabel)];
      Defined(code) <= names && Used(code) <= Defined(code) && Unique(code)
  {
    Pair(IRInstr(JMP, endLabel), IRInstr(LABEL, elseLabel));
    Single(IRInstr(LABEL, endLabel));
    Join3(front, [IRInstr(JMP, endLabel), IRInstr(LABEL, elseLabel)], ec);
    Join(front + [IRInstr(JMP, endLabel), IRInstr(LABEL, elseLabel)] + ec, [IRInstr(LABEL, endLabel)]);
  }

  lemma {:induction false} WhileLabels(c: Ptr, b: Ptr, lc: nat)
    ensures var k := WhileCode(c, b, lc); WellLabelled(k.code, lc, k.next)
    decreases Some(WhileStmt(c, b)), 0
  {
    var cc := Compile(c, lc + 2);
    var bc := Compile(b, cc.next);
    CompiledLabels(c, lc + 2);
    CompiledLabels(b, cc.next);
    WhileLayout(cc.code, bc.code, lc, cc.next, bc.next);
  }

  /** The layout of a `while` around well labelled parts. */
  lemma WhileLayout(cc: seq<IRInstr>, bc: seq<IRInstr>, lc: nat, m: nat, hi: nat)
    requires lc + 2 <= m <= hi && WellLabelled(cc, lc + 2, m) && WellLabelled(bc, m, hi)
    ensures var startLabel, endLabel := LabelName(StartPrefix, lc), LabelName(EndPrefix, lc + 1);
      WellLabelled([IRInstr(LABEL, startLabel)] + cc + [IRInstr(JZ, endLabel)] + bc
                   + [IRInstr(JMP, startLabel), IRInstr(LABEL, endLabel)], lc, hi)
  {
    Inner(cc, lc, lc + 2, m, hi);
    Inner(bc, lc, m, hi, hi);
    Own(StartPrefix, EndPrefix, lc, hi);
    NamesDisjoint(lc + 2, m, m, hi);
    WhileSets(cc, bc, LabelName(StartPrefix, lc), LabelName(EndPrefix, lc + 1), Names(lc, hi));
  }

  /** A `while` layout around pieces with labels in `names` is well
   *  labelled in `names`. */
  lemma WhileSets(cc: seq<IRInstr>, bc: seq<IRInstr>, startLabel: string, endLabel: string, names: set<string>)
    requires Unique(cc) && Unique(bc) && Defined(cc) !! Defined(bc)
    requires startLabel !in Defined(cc) && startLabel !in Defined(bc)
    requires endLabel !in Defined(cc) && endLabel !in Defined(bc)
    requires startLabel != endLabel && startLabel in names && endLabel in names
    requires Defined(cc) <= names && Defined(bc) <= names
    requires Used(cc) <= Defined(cc) && Used(bc) <= Defined(bc)
    ensures var code := [IRInstr(LABEL, startLabel)] + cc + [IRInstr(JZ, endLabel)] + bc
                        + [IRInstr(JMP, startLabel), IRInstr(LABEL, endLabel)];
      Defined(code) <= names && Used(code) <= Defined(code) && Unique(code)
  {
    var front := [IRInstr(LABEL, startLabel)] + cc + [IRInstr(JZ, endLabel)];
    Single(IRInstr(LABEL, startLabel));
    Single(IRInstr(JZ, endLabel));
    Join3([IRInstr(LABEL, startLabel)], cc, [IRInstr(JZ, endLabel)]);
    Pair(IRInstr(JMP, startLabel), IRInstr(LABEL, endLabel));
    Join3(front, bc, [IRInstr(JMP, startLabel), IRInstr(LABEL, endLabel)]);
  }

  // ---------------------------------------------------------------------
  // Jumps of a compiled program

  /** In the program `compileAST` builds for a tree, every JZ and JMP names
   *  a label the pre-pass of `run` maps, to the one LABEL of that name:
   *  after the jump, the instruction after that LABEL runs. */
  lemma JumpsLand(p: Ptr, i: nat)
    requires i < |Compile(p, 0).code|
    requires Compile(p, 0).code[i].op == JZ || Compile(p, 0).code[i].op == JMP
    ensures var code, k := Compile(p, 0).code, Compile(p, 0).code[i].arg;
      k in Labels(code) && Labels(code)[k] < |code| && code[Labels(code)[k]] == IRInstr(LABEL, k) &&
      forall j | 0 <= j < |code| && code[j] == IRInstr(LABEL, k) :: j == Labels(code)[k]
  {
    var code := Compile(p, 0).code;
    var k := code[i].arg;
    CompiledLabels(p, 0);
    UsedHasTargets(code, i);
    DefinedMeans(code, k);
    var d :| 0 <= d < |code| && code[d] == IRInstr(LABEL, k);
    forall j | 0 <= j < |code| && j != d
      ensures code[j] != IRInstr(LABEL, k)
    {
      if code[j] == IRInstr(LABEL, k) {
        UniqueMeansDistinct(code, d, j);
      }
    }
    UniqueLabelResolves(code, d, k);
  }
}
