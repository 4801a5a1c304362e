/** What the parser accepts and builds, stated about the functions of module
 *  Grammar. */
module GrammarProperties {
  import opened Base
  import opened MachineInt
  import opened Ast
  import opened Decimal
  import opened Grammar

  /** Text that is only white space is the empty program. */
  lemma BlankProgramIsEmpty(s: string)
    requires forall i | 0 <= i < |s| :: IsSpace(s[i])
    ensures Parse(s) == Ok(Block([]))
  {
    BlankSkipped(s, 0);
    assert Peek(s, 0) == ('\0', |s|);
    assert StatementsLoop(s, 0, []) == Ok(([], |s| as nat));
    assert ParseProgram(s, 0) == Ok((Block([]), |s| as nat));
  }

  lemma {:induction false} BlankSkipped(s: string, p: nat)
    requires p <= |s|
    requires forall i | p <= i < |s| :: IsSpace(s[i])
    ensures SkipWs(s, p) == |s|
    decreases |s| - p
  {
    if p < |s| {
      BlankSkipped(s, p + 1);
    }
  }

  /** Keywords are raw prefixes: wherever the next non-blank text starts with
   *  `if`, the statement is an `if`, even when a longer identifier such as
   *  `ifx` begins there. */
  lemma {:induction false} IfKeywordIsPrefix(s: string, p: nat)
    requires p <= |s|
    requires "if" <= s[SkipWs(s, p)..]
    ensures ParseStatement(s, p) == ParseIf(s, SkipWs(s, p) + 2)
  {
  }

  /** The `while` keyword is a raw prefix too (`whilex` starts a loop); `if`
   *  cannot also match there, so it is tried and passed over. */
  lemma WhileKeywordIsPrefix(s: string, p: nat)
    requires p <= |s|
    requires "while" <= s[SkipWs(s, p)..]
    ensures ParseStatement(s, p) == ParseWhile(s, SkipWs(s, p) + 5)
  {
    var k := SkipWs(s, p);
    assert s[k] == 'w';
    SkipWsIdempotent(s, p);
  }

  /** The `print` keyword is a raw prefix, tried after `if` and `while`. */
  lemma PrintKeywordIsPrefix(s: string, p: nat)
    requires p <= |s|
    requires "print" <= s[SkipWs(s, p)..]
    ensures ParseStatement(s, p) == ParsePrint(s, SkipWs(s, p) + 5)
  {
    var k := SkipWs(s, p);
    SkipWsIdempotent(s, p);
    assert s[k] == 'p';
    assert Match(s, p, "if") == (false, k);
    assert Match(s, k, "while") == (false, k);
    assert Match(s, k, "print") == (true, k + 5);
  }

  /** A statement that starts with an identifier followed by `=` is an
   *  assignment, so `x == 1;` is read as `x =` and fails on the second `=`. */
  lemma AssignmentDispatch(s: string, p: nat)
    requires p <= |s|
    requires !("if" <= s[SkipWs(s, p)..]) && !("while" <= s[SkipWs(s, p)..]) && !("print" <= s[SkipWs(s, p)..])
    requires ParseIdentifier(s, p).Ok?
    requires CharAt(s, SkipWs(s, ParseIdentifier(s, p).value.1)) == '='
    ensures ParseStatement(s, p) == ParseAssignment(s, SkipWs(s, p))
  {
    var q := SkipWs(s, p);
    assert SkipWs(s, q) == q;
    var q1 := ParseIdentifier(s, p).value.1;
    assert SkipWs(s, SkipWs(s, q1)) == SkipWs(s, q1);
  }

  /** Once white space is skipped, skipping again does nothing. */
  lemma SkipWsIdempotent(s: string, p: nat)
    requires p <= |s|
    ensures SkipWs(s, SkipWs(s, p)) == SkipWs(s, p)
  {
    var q := SkipWs(s, p);
    assert q < |s| ==> !IsSpace(s[q]);
  }

  /** No operator of a level matches when the next non-blank character is
   *  not the first character of any of them. */
  lemma {:induction false} NoOperatorMatches(s: string, q: nat, ops: seq<string>)
    requires q <= |s|
    requires |ops| > 0
    requires forall i | 0 <= i < |ops| :: |ops[i]| > 0 && ops[i][0] != CharAt(s, SkipWs(s, q))
    ensures MatchFirst(s, q, ops) == (None, SkipWs(s, q))
    decreases |ops|
  {
    var k := SkipWs(s, q);
    {
      assert !(ops[0] <= s[k..]);
      SkipWsIdempotent(s, q);
      assert Match(s, q, ops[0]) == (false, k);
      if |ops| > 1 {
        NoOperatorMatches(s, k, ops[1..]);
      }
      assert MatchFirst(s, q, ops) == MatchFirst(s, k, ops[1..]);
    }
  }

  /** The characters that begin an operator. */
  const OperatorStarts: set<char> := {'*', '/', '+', '-', '<', '>', '=', '!'}

  /** The loop of `parseTerm` stops, past the blanks, where no `*` or `/`
   *  follows. */
  lemma TermLoopEnds(s: string, q: nat, node: Node)
    requires q <= |s|
    requires IsExpr(node)
    requires CharAt(s, SkipWs(s, q)) !in {'*', '/'}
    ensures TermLoop(s, q, node) == Ok((node, SkipWs(s, q)))
  {
    NoOperatorMatches(s, q, TermOps);
  }

  /** The loop of `parseRelational` stops where no operator follows. */
  lemma RelationalLoopEnds(s: string, q: nat, node: Node)
    requires q <= |s|
    requires IsExpr(node)
    requires CharAt(s, SkipWs(s, q)) !in OperatorStarts
    ensures RelationalLoop(s, q, node) == Ok((node, SkipWs(s, q)))
  {
    NoOperatorMatches(s, q, RelationalOps);
  }

  /** The loop of `parseEquality` stops where no operator follows. */
  lemma EqualityLoopEnds(s: string, q: nat, node: Node)
    requires q <= |s|
    requires IsExpr(node)
    requires CharAt(s, SkipWs(s, q)) !in OperatorStarts
    ensures EqualityLoop(s, q, node) == Ok((node, SkipWs(s, q)))
  {
    NoOperatorMatches(s, q, EqualityOps);
  }

  /** A factor not followed by `*` or `/` is a whole term. */
  lemma TermOfFactor(s: string, p: nat)
    requires p <= |s|
    requires ParseFactor(s, p).Ok?
    requires CharAt(s, SkipWs(s, ParseFactor(s, p).value.1)) !in {'*', '/'}
    ensures ParseTerm(s, p) == Ok((ParseFactor(s, p).value.0, SkipWs(s, ParseFactor(s, p).value.1)))
  {
    TermLoopEnds(s, ParseFactor(s, p).value.1, ParseFactor(s, p).value.0);
  }

  /** A term not followed by `+` or `-` is a whole additive expression. */
  lemma AdditiveOfTerm(s: string, p: nat)
    requires p <= |s|
    requires ParseTerm(s, p).Ok?
    requires CharAt(s, SkipWs(s, ParseTerm(s, p).value.1)) !in {'+', '-'}
    ensures ParseAdditive(s, p) == Ok((ParseTerm(s, p).value.0, SkipWs(s, ParseTerm(s, p).value.1)))
  {
    AdditiveLoopEnds(s, ParseTerm(s, p).value.1, ParseTerm(s, p).value.0);
  }

  /** An additive expression followed by no operator at all is a whole
   *  expression. */
  lemma ExpressionOfAdditive(s: string, p: nat)
    requires p <= |s|
    requires ParseAdditive(s, p).Ok?
    requires CharAt(s, SkipWs(s, ParseAdditive(s, p).value.1)) !in OperatorStarts
    ensures ParseExpression(s, p) == Ok((ParseAdditive(s, p).value.0, SkipWs(s, ParseAdditive(s, p).value.1)))
  {
    var n, q := ParseAdditive(s, p).value.0, ParseAdditive(s, p).value.1;
    var k := SkipWs(s, q);
    RelationalLoopEnds(s, q, n);
    assert ParseRelational(s, p) == Ok((n, k));
    SkipWsIdempotent(s, q);
    EqualityLoopEnds(s, k, n);
  }

  /** A factor followed by no operator is a whole expression. */
  lemma ExpressionOfFactor(s: string, p: nat)
    requires p <= |s|
    requires ParseFactor(s, p).Ok?
    requires CharAt(s, SkipWs(s, ParseFactor(s, p).value.1)) !in OperatorStarts
    ensures ParseExpression(s, p) == Ok((ParseFactor(s, p).value.0, SkipWs(s, ParseFactor(s, p).value.1)))
  {
    var q := ParseFactor(s, p).value.1;
    TermOfFactor(s, p);
    SkipWsIdempotent(s, q);
    AdditiveOfTerm(s, p);
    ExpressionOfAdditive(s, p);
  }

  /** A factor that fails makes the additive operand that starts with it
   *  fail with the same error. */
  lemma FactorErrorIsAdditiveError(s: string, p: nat)
    requires p <= |s|
    requires ParseFactor(s, p).Err?
    ensures ParseAdditive(s, p) == ParseFactor(s, p)
  {
    assert ParseTerm(s, p) == ParseFactor(s, p);
  }

  /** A factor that fails makes the expression that starts with it fail with
   *  the same error. */
  lemma FactorErrorIsExpressionError(s: string, p: nat)
    requires p <= |s|
    requires ParseFactor(s, p).Err?
    ensures ParseExpression(s, p) == ParseFactor(s, p)
  {
    FactorErrorIsAdditiveError(s, p);
    assert ParseRelational(s, p) == ParseFactor(s, p);
  }

  /** No additive operand starts with `=`. */
  lemma AdditiveAtEqualsFails(s: string, j: nat)
    requires j < |s| && s[j] == '='
    ensures ParseAdditive(s, j) == Err(UnexpectedCharacterInFactor)
  {
    assert SkipWs(s, j) == j;
    assert ParseFactor(s, j) == Err(UnexpectedCharacterInFactor);
    FactorErrorIsAdditiveError(s, j);
  }

  /** No expression starts with `=`. */
  lemma ExpressionAtEqualsFails(s: string, j: nat)
    requires j < |s| && s[j] == '='
    ensures ParseExpression(s, j) == Err(UnexpectedCharacterInFactor)
  {
    assert SkipWs(s, j) == j;
    assert ParseFactor(s, j) == Err(UnexpectedCharacterInFactor);
    FactorErrorIsExpressionError(s, j);
  }

  /** The operator the `parseRelational` loop matches in front of `<=` or
   *  `>=` is the one-character `<` or `>`. */
  lemma RelationalOperatorBeforeEquals(s: string, q: nat, op: string)
    requires q <= |s|
    requires op == "<=" || op == ">="
    requires op <= s[SkipWs(s, q)..]
    ensures MatchFirst(s, q, RelationalOps) == (Some(op[..1]), SkipWs(s, q) + 1)
  {
    var k := SkipWs(s, q);
    assert op[..1] <= s[k..];
    if op == "<=" {
      assert op[..1] == RelationalOps[0];
      assert Match(s, q, "<") == (true, k + 1);
    } else {
      assert Match(s, q, "<") == (false, k);
      SkipWsIdempotent(s, q);
      assert op[..1] == RelationalOps[1];
      assert Match(s, k, ">") == (true, k + 1);
      assert RelationalOps[1..] == [">", "<=", ">="];
    }
  }

  /** `<` is tried before `<=`, so an additive operand followed by `<=`
   *  reads `<` and then fails on the `=` (and likewise for `>=`): the
   *  parser never builds `<=` or `>=`. */
  lemma LessEqualFails(s: string, p: nat, op: string)
    requires p <= |s|
    requires op == "<=" || op == ">="
    requires ParseAdditive(s, p).Ok?
    requires op <= s[SkipWs(s, ParseAdditive(s, p).value.1)..]
    ensures ParseRelational(s, p) == Err(UnexpectedCharacterInFactor)
  {
    var n, q := ParseAdditive(s, p).value.0, ParseAdditive(s, p).value.1;
    LessEqualLoopFails(s, q, n, op);
  }

  /** The loop of `parseRelational` fails in front of `<=` or `>=`. */
  lemma LessEqualLoopFails(s: string, q: nat, n: Node, op: string)
    requires q <= |s|
    requires IsExpr(n)
    requires op == "<=" || op == ">="
    requires op <= s[SkipWs(s, q)..]
    ensures RelationalLoop(s, q, n) == Err(UnexpectedCharacterInFactor)
  {
    var k := SkipWs(s, q);
    assert s[k + 1] == '=';
    RelationalOperatorBeforeEquals(s, q, op);
    AdditiveAtEqualsFails(s, k + 1);
  }

  /** `if` is a raw prefix: text such as `ifx = 1;`, where no `(` follows the
   *  two letters, fails with Expected '(' instead of being read as an
   *  assignment to `ifx`. */
  lemma IfPrefixWithoutParenFails(s: string, p: nat)
    requires p <= |s|
    requires "if" <= s[SkipWs(s, p)..]
    requires CharAt(s, SkipWs(s, SkipWs(s, p) + 2)) != '('
    ensures ParseStatement(s, p) == Err(Expected('('))
  {
    IfKeywordIsPrefix(s, p);
    var k := SkipWs(s, SkipWs(s, p) + 2);
    SkipWsIdempotent(s, SkipWs(s, p) + 2);
    assert Get(s, k).0 == CharAt(s, k);
  }

  /** An assignment whose `=` is followed by another `=` fails: the second
   *  `=` cannot start a factor. */
  lemma AssignmentToEqualsFails(s: string, p: nat)
    requires p <= |s|
    requires ParseIdentifier(s, p).Ok?
    requires "==" <= s[SkipWs(s, ParseIdentifier(s, p).value.1)..]
    ensures ParseAssignment(s, p) == Err(UnexpectedCharacterInFactor)
  {
    var q := ParseIdentifier(s, p).value.1;
    var k := SkipWs(s, q);
    assert s[k] == '=' && s[k + 1] == '=' by {
      assert s[k..][0] == '=' && s[k..][1] == '=';
    }
    ExpectAtCharacter(s, q, '=');
    ExpressionAtEqualsFails(s, k + 1);
    AssignmentValueFails(s, p, k + 1);
  }

  /** An assignment whose value fails to parse fails with that error. */
  lemma AssignmentValueFails(s: string, p: nat, j: nat)
    requires p <= |s| && ParseIdentifier(s, p).Ok?
    requires Expect(s, ParseIdentifier(s, p).value.1, '=') == Ok(j)
    requires ParseExpression(s, j).Err?
    ensures ParseAssignment(s, p) == Err(ParseExpression(s, j).error)
  {
  }

  /** `expect(c)` succeeds, just past `c`, when `c` is the next non-blank
   *  character. */
  lemma ExpectAtCharacter(s: string, q: nat, c: char)
    requires q <= |s|
    requires SkipWs(s, q) < |s| && s[SkipWs(s, q)] == c
    ensures Expect(s, q, c) == Ok(SkipWs(s, q) + 1)
  {
    SkipWsIdempotent(s, q);
  }

  /** A statement that starts with an identifier and then `==` is read as an
   *  assignment whose right-hand side starts at the second `=`, so it fails
   *  with "Unexpected character in factor" (`x == 1;`). */
  lemma EqualityStatementFails(s: string, p: nat)
    requires p <= |s|
    requires !("if" <= s[SkipWs(s, p)..]) && !("while" <= s[SkipWs(s, p)..]) && !("print" <= s[SkipWs(s, p)..])
    requires ParseIdentifier(s, p).Ok?
    requires "==" <= s[SkipWs(s, ParseIdentifier(s, p).value.1)..]
    ensures ParseStatement(s, p) == Err(UnexpectedCharacterInFactor)
  {
    var q := ParseIdentifier(s, p).value.1;
    assert s[SkipWs(s, q)] == '=';
    AssignmentDispatch(s, p);
    SkipWsIdempotent(s, p);
    assert ParseIdentifier(s, SkipWs(s, p)) == ParseIdentifier(s, p);
    AssignmentToEqualsFails(s, SkipWs(s, p));
  }

  /** One round of the `parseAdditive` loop: when the next non-blank
   *  character is `+` or `-`, the tree built so far becomes the LEFT operand
   *  of that operator and the next term its right operand, so `a-b-c` is
   *  `(a-b)-c`. */
  lemma AdditiveStep(s: string, q: nat, node: Node, t: Node, q1: nat)
    requires q <= |s|
    requires IsExpr(node)
    requires CharAt(s, SkipWs(s, q)) == '+' || CharAt(s, SkipWs(s, q)) == '-'
    requires ParseTerm(s, SkipWs(s, q) + 1) == Ok((t, q1))
    ensures AdditiveLoop(s, q, node) == AdditiveLoop(s, q1, BinaryExpr([s[SkipWs(s, q)]], Some(node), Some(t)))
  {
    AdditiveOperatorAt(s, q);
  }

  /** The additive operator the loop matches is the next non-blank character. */
  lemma AdditiveOperatorAt(s: string, q: nat)
    requires q <= |s|
    requires CharAt(s, SkipWs(s, q)) == '+' || CharAt(s, SkipWs(s, q)) == '-'
    ensures var k := SkipWs(s, q);
      MatchFirst(s, q, AdditiveOps) == (Some([s[k]]), k + 1)
  {
    var k := SkipWs(s, q);
    assert [s[k]] <= s[k..];
    if s[k] == '+' {
      assert Match(s, q, "+") == (true, k + 1);
    } else {
      assert Match(s, q, "+") == (false, k);
      SkipWsIdempotent(s, q);
      assert Match(s, k, "-") == (true, k + 1);
      assert AdditiveOps[1..] == ["-"];
    }
  }

  /** One round of the `parseTerm` loop: the next factor becomes the right
   *  operand of `*` or `/` and the tree so far its left one, so `a/b*c` is
   *  `(a/b)*c`. */
  lemma TermStep(s: string, q: nat, node: Node, t: Node, q1: nat)
    requires q <= |s|
    requires IsExpr(node)
    requires CharAt(s, SkipWs(s, q)) == '*' || CharAt(s, SkipWs(s, q)) == '/'
    requires ParseFactor(s, SkipWs(s, q) + 1) == Ok((t, q1))
    ensures TermLoop(s, q, node) == TermLoop(s, q1, BinaryExpr([s[SkipWs(s, q)]], Some(node), Some(t)))
  {
    TermOperatorAt(s, q);
  }

  /** The term operator the loop matches is the next non-blank character. */
  lemma TermOperatorAt(s: string, q: nat)
    requires q <= |s|
    requires CharAt(s, SkipWs(s, q)) == '*' || CharAt(s, SkipWs(s, q)) == '/'
    ensures var k := SkipWs(s, q);
      MatchFirst(s, q, TermOps) == (Some([s[k]]), k + 1)
  {
    var k := SkipWs(s, q);
    assert [s[k]] <= s[k..];
    if s[k] == '*' {
      assert Match(s, q, "*") == (true, k + 1);
    } else {
      assert Match(s, q, "*") == (false, k);
      SkipWsIdempotent(s, q);
      assert Match(s, k, "/") == (true, k + 1);
      assert TermOps[1..] == ["/"];
    }
  }

  /** One round of the `parseRelational` loop: the right operand of `<` or
   *  `>` is a whole additive expression, so `a<b+c` is `a<(b+c)`, and the
   *  comparisons fold leftward. */
  lemma RelationalStep(s: string, q: nat, node: Node, t: Node, q1: nat)
    requires q <= |s|
    requires IsExpr(node)
    requires CharAt(s, SkipWs(s, q)) == '<' || CharAt(s, SkipWs(s, q)) == '>'
    requires ParseAdditive(s, SkipWs(s, q) + 1) == Ok((t, q1))
    ensures RelationalLoop(s, q, node) == RelationalLoop(s, q1, BinaryExpr([s[SkipWs(s, q)]], Some(node), Some(t)))
  {
    RelationalOperatorAt(s, q);
  }

  /** The relational operator the loop matches is the next non-blank
   *  character alone, whatever follows it. */
  lemma RelationalOperatorAt(s: string, q: nat)
    requires q <= |s|
    requires CharAt(s, SkipWs(s, q)) == '<' || CharAt(s, SkipWs(s, q)) == '>'
    ensures var k := SkipWs(s, q);
      MatchFirst(s, q, RelationalOps) == (Some([s[k]]), k + 1)
  {
    var k := SkipWs(s, q);
    assert [s[k]] <= s[k..];
    if s[k] == '<' {
      assert Match(s, q, "<") == (true, k + 1);
    } else {
      assert Match(s, q, "<") == (false, k);
      SkipWsIdempotent(s, q);
      assert Match(s, k, ">") == (true, k + 1);
      assert RelationalOps[1..] == [">", "<=", ">="];
    }
  }

  /** One round of the `parseEquality` loop: the right operand of `==` or
   *  `!=` is a whole relational expression, so `a==b<c` is `a==(b<c)`, and
   *  the comparisons fold leftward. */
  lemma EqualityStep(s: string, q: nat, node: Node, t: Node, q1: nat)
    requires q <= |s|
    requires IsExpr(node)
    requires SkipWs(s, q) + 2 <= |s|
    requires s[SkipWs(s, q)..SkipWs(s, q) + 2] in {"==", "!="}
    requires ParseRelational(s, SkipWs(s, q) + 2) == Ok((t, q1))
    ensures EqualityLoop(s, q, node) == EqualityLoop(s, q1, BinaryExpr(s[SkipWs(s, q)..SkipWs(s, q) + 2], Some(node), Some(t)))
  {
    EqualityOperatorAt(s, q);
  }

  /** The equality operator the loop matches is the next two non-blank
   *  characters. */
  lemma EqualityOperatorAt(s: string, q: nat)
    requires q <= |s|
    requires SkipWs(s, q) + 2 <= |s|
    requires s[SkipWs(s, q)..SkipWs(s, q) + 2] in {"==", "!="}
    ensures var k := SkipWs(s, q);
      MatchFirst(s, q, EqualityOps) == (Some(s[k..k + 2]), k + 2)
  {
    var k := SkipWs(s, q);
    var op := s[k..k + 2];
    assert op <= s[k..];
    if op == "==" {
      assert Match(s, q, "==") == (true, k + 2);
    } else {
      assert s[k] == '!';
      assert Match(s, q, "==") == (false, k);
      SkipWsIdempotent(s, q);
      assert Match(s, k, "!=") == (true, k + 2);
      assert EqualityOps[1..] == ["!="];
    }
  }

  /** The `parseAdditive` loop returns the tree so far when no `+` or `-`
   *  follows. */
  lemma AdditiveLoopEnds(s: string, q: nat, node: Node)
    requires q <= |s|
    requires IsExpr(node)
    requires CharAt(s, SkipWs(s, q)) !in {'+', '-'}
    ensures AdditiveLoop(s, q, node) == Ok((node, SkipWs(s, q)))
  {
    NoOperatorMatches(s, q, AdditiveOps);
  }

  /** Blanks between digits are skipped: `1 2` is the literal 12. */
  lemma SplitNumberExample()
    ensures ParseFactor("1 2", 0) == Ok((Literal(12), 3))
  {
    var s := "1 2";
    assert SkipWs(s, 0) == 0 && SkipWs(s, 2) == 2 && SkipWs(s, 3) == 3;
    assert SkipWs(s, 1) == 2 by { assert IsSpace(s[1]); }
    assert NumberLoop(s, 3, 12) == Ok((Literal(12), 3));
    assert NumberLoop(s, 1, 1) == Ok((Literal(12), 3));
  }

  // ---------------------------------------------------------------------
  // Blanks inside numbers and names

  /** `t` with its white space taken out. */
  function Unblanked(t: string): string
  {
    if |t| == 0 then []
    else if IsSpace(t[0]) then Unblanked(t[1..])
    else [t[0]] + Unblanked(t[1..])
  }

  /** Where a run from `p` of characters that `part` accepts, with white
   *  space between them, ends: the first position holding neither. */
  function RunEnd(s: string, p: nat, part: char -> bool): (q: nat)
    requires p <= |s|
    ensures p <= q <= |s|
    decreases |s| - p
  {
    if p < |s| && (part(s[p]) || IsSpace(s[p])) then RunEnd(s, p + 1, part) else p
  }

  function Pow10(k: nat): (r: nat)
    ensures r >= 1
  {
    if k == 0 then 1 else 10 * Pow10(k - 1)
  }

  /** Taking the blanks out of `s[p..q]`, one character at a time. */
  lemma UnblankedFront(s: string, p: nat, q: nat)
    requires p < q <= |s|
    ensures Unblanked(s[p..q]) == (if IsSpace(s[p]) then [] else [s[p]]) + Unblanked(s[p + 1..q])
  {
    assert s[p..q][1..] == s[p + 1..q];
  }

  /** Once the blanks of a run are taken out, what remains is characters
   *  that `part` accepts. */
  lemma {:induction false} RunParts(s: string, p: nat, part: char -> bool)
    requires p <= |s|
    ensures var u := Unblanked(s[p..RunEnd(s, p, part)]);
      forall i | 0 <= i < |u| :: part(u[i])
    decreases |s| - p
  {
    var q := RunEnd(s, p, part);
    if p < q {
      assert RunEnd(s, p + 1, part) == q;
      UnblankedFront(s, p, q);
      RunParts(s, p + 1, part);
      var u := Unblanked(s[p + 1..q]);
      assert forall i | 0 <= i < |u| :: part(u[i]);
    }
  }

  /** A numeral read from its first digit on. */
  lemma {:induction false} DigitsValueFront(c: char, d: string)
    requires IsDigitChar(c) && AllDigits(d)
    ensures AllDigits([c] + d)
    ensures DigitsValue([c] + d) == DigitValue(c) * Pow10(|d|) + DigitsValue(d)
    decreases |d|
  {
    var e := [c] + d;
    if |d| == 0 {
      assert e[..|e| - 1] == [];
    } else {
      var d' := d[..|d| - 1];
      var last := DigitValue(d[|d| - 1]);
      assert e[..|e| - 1] == [c] + d';
      DigitsValueFront(c, d');
      calc {
        DigitsValue(e);
        DigitsValue([c] + d') * 10 + last;
        (DigitValue(c) * Pow10(|d'|) + DigitsValue(d')) * 10 + last;
        DigitValue(c) * (Pow10(|d'|) * 10) + (DigitsValue(d') * 10 + last);
        DigitValue(c) * Pow10(|d|) + DigitsValue(d);
      }
    }
  }

  /** The value `v` followed by the digits `d`. */
  function Followed(v: int, d: string): int
    requires AllDigits(d)
  {
    v * Pow10(|d|) + DigitsValue(d)
  }

  /** Appending digits one at a time: `v` followed by `c` and then `d` is
   *  `v * 10 + c` followed by `d`, and at least `v * 10 + c` when `v` is not
   *  negative. */
  lemma FollowedFront(v: int, c: char, d: string)
    requires IsDigitChar(c) && AllDigits(d)
    ensures AllDigits([c] + d)
    ensures Followed(v, [c] + d) == Followed(v * 10 + DigitValue(c), d)
    ensures v >= 0 ==> Followed(v, [c] + d) >= v * 10 + DigitValue(c)
  {
    DigitsValueFront(c, d);
    var k := Pow10(|d|);
    var w := v * 10 + DigitValue(c);
    assert Pow10(|[c] + d|) == 10 * k;
    Distribute(v, DigitValue(c), k);
    if v >= 0 {
      AtLeastOnce(w, k);
    }
  }

  lemma Distribute(v: int, c: int, k: int)
    ensures v * (10 * k) + c * k == (v * 10 + c) * k
  {
  }

  lemma AtLeastOnce(w: int, k: int)
    requires w >= 0 && k >= 1
    ensures w * k >= w
  {
  }

  /** A blank in front of the digits still to read is skipped. */
  lemma NumberLoopBlank(s: string, p: nat, v: int32)
    requires p < |s| && v >= 0 && IsSpace(s[p])
    ensures NumberLoop(s, p, v) == NumberLoop(s, p + 1, v)
  {
    assert SkipWs(s, p) == SkipWs(s, p + 1);
  }

  /** A digit in front is added to the value, or overflows it. */
  lemma NumberLoopDigit(s: string, p: nat, v: int32)
    requires p < |s| && v >= 0 && IsDigit(s[p])
    ensures var w := v as int * 10 + DigitValue(s[p]);
      NumberLoop(s, p, v) == if InRange(w) then NumberLoop(s, p + 1, w as int32) else Err(LiteralOverflow)
  {
    assert SkipWs(s, p) == p;
  }

  /** The digit loop of `parseFactor` reads every digit up to the first
   *  character that is neither a digit nor a blank, skipping the blanks
   *  (`1 2` is 12): from the value `v` read so far it yields `v` followed by
   *  those digits, or LiteralOverflow when that number is past the `int`
   *  range. */
  lemma {:induction false} NumberLoopReads(s: string, p: nat, v: int32)
    requires p <= |s| && v >= 0
    ensures var q := RunEnd(s, p, IsDigit);
      var d := Unblanked(s[p..q]);
      AllDigits(d) &&
      NumberLoop(s, p, v) ==
        if InRange(Followed(v as int, d)) then Ok((Literal(Followed(v as int, d) as int32), q)) else Err(LiteralOverflow)
    decreases |s| - p
  {
    var q := RunEnd(s, p, IsDigit);
    RunParts(s, p, IsDigit);
    if p < q {
      assert RunEnd(s, p + 1, IsDigit) == q;
      UnblankedFront(s, p, q);
      var d' := Unblanked(s[p + 1..q]);
      RunParts(s, p + 1, IsDigit);
      if IsSpace(s[p]) {
        NumberLoopBlank(s, p, v);
        NumberLoopReads(s, p + 1, v);
      } else {
        NumberLoopDigit(s, p, v);
        FollowedFront(v as int, s[p], d');
        var w := v as int * 10 + DigitValue(s[p]);
        if InRange(w) {
          NumberLoopReads(s, p + 1, w as int32);
        }
      }
    } else {
      assert SkipWs(s, p) == p;
      assert s[p..q] == [];
    }
  }

  /** A factor that starts with a digit is the number its digits spell,
   *  blanks between them skipped, or LiteralOverflow past the `int` range. */
  lemma NumberFactorReads(s: string, p: nat)
    requires p <= |s|
    requires IsDigit(CharAt(s, SkipWs(s, p)))
    ensures var k := SkipWs(s, p);
      var q := RunEnd(s, k, IsDigit);
      var d := Unblanked(s[k..q]);
      AllDigits(d) &&
      ParseFactor(s, p) ==
        if InRange(DigitsValue(d)) then Ok((Literal(DigitsValue(d) as int32), q)) else Err(LiteralOverflow)
  {
    NumberLoopReads(s, SkipWs(s, p), 0);
  }

  /** A blank in front of the rest of a name is skipped. */
  lemma IdentifierLoopBlank(s: string, p: nat, name: string)
    requires p < |s| && IsSpace(s[p])
    ensures IdentifierLoop(s, p, name) == IdentifierLoop(s, p + 1, name)
  {
    assert SkipWs(s, p) == SkipWs(s, p + 1);
  }

  /** A letter, digit or `_` in front is appended to the name. */
  lemma IdentifierLoopPart(s: string, p: nat, name: string)
    requires p < |s| && ContinuesIdentifier(s[p])
    ensures IdentifierLoop(s, p, name) == IdentifierLoop(s, p + 1, name + [s[p]])
  {
    assert SkipWs(s, p) == p;
  }

  /** The name loop of `parseIdentifier` reads up to the first character
   *  that is neither a letter, digit, `_` nor a blank, and appends what it
   *  read to the name with the blanks left out. */
  lemma {:induction false} IdentifierLoopReads(s: string, p: nat, name: string)
    requires p <= |s|
    ensures var q := RunEnd(s, p, ContinuesIdentifier);
      IdentifierLoop(s, p, name) == Ok((name + Unblanked(s[p..q]), q))
    decreases |s| - p
  {
    var q := RunEnd(s, p, ContinuesIdentifier);
    if p < q {
      assert RunEnd(s, p + 1, ContinuesIdentifier) == q;
      UnblankedFront(s, p, q);
      if IsSpace(s[p]) {
        IdentifierLoopBlank(s, p, name);
        IdentifierLoopReads(s, p + 1, name);
      } else {
        IdentifierLoopPart(s, p, name);
        IdentifierLoopReads(s, p + 1, name + [s[p]]);
        assert name + [s[p]] + Unblanked(s[p + 1..q]) == name + Unblanked(s[p..q]);
      }
    } else {
      assert SkipWs(s, p) == p;
      assert s[p..q] == [];
      assert name + Unblanked(s[p..q]) == name;
    }
  }

  /** `parseIdentifier` reads a name from the first non-blank character, a
   *  letter or `_`, through the letters, digits, `_` and blanks after it,
   *  with the blanks left out (`a b` is the name `ab`). */
  lemma ParseIdentifierReads(s: string, p: nat)
    requires p <= |s|
    requires StartsIdentifier(CharAt(s, SkipWs(s, p)))
    ensures var k := SkipWs(s, p);
      var q := RunEnd(s, k, ContinuesIdentifier);
      ParseIdentifier(s, p) == Ok((Unblanked(s[k..q]), q))
  {
    var k := SkipWs(s, p);
    SkipWsIdempotent(s, p);
    var q := RunEnd(s, k, ContinuesIdentifier);
    assert s[k..q][1..] == s[k + 1..q];
    IdentifierLoopReads(s, k + 1, [s[k]]);
  }

  /** A block whose statements run to the end of the input fails on the
   *  missing `}` (`{ x = 1;`). */
  lemma UnclosedBlockFails(s: string, p: nat)
    requires p <= |s|
    requires Expect(s, p, '{').Ok?
    requires ParseStatements(s, Expect(s, p, '{').value).Ok?
    requires ParseStatements(s, Expect(s, p, '{').value).value.1 == |s|
    ensures ParseBlock(s, p) == Err(Expected('}'))
  {
  }
}
