/** The parser never looks past a `}` it stops at.  Every function of
 *  Grammar that succeeds and stops before position `n`, where `s[n-1]` is a
 *  `}`, gives the same result on any text that agrees with `s` below `n`:
 *  skipping, peeking and matching stop at that `}` at the latest, since no
 *  keyword or operator contains one.  The consequence is that `parse` drops
 *  whatever follows the first `}` its top level stops at. */
module GrammarLocality {
  import opened Base
  import opened MachineInt
  import opened Ast
  import opened Grammar

  /** `t` agrees with `s` below `n`, and `s[n-1]` is a `}`. */
  predicate Shared(s: string, t: string, n: nat) {
    0 < n <= |s| && n <= |t| && s[n - 1] == '}' &&
    forall i | 0 <= i < n :: s[i] == t[i]
  }

  /** The top level stops at an unmatched `}`, and whatever text follows it
   *  does not change the program. */
  lemma TextAfterBraceIgnored(s: string, t: string)
    requires ParseStatements(s, 0).Ok?
    requires CharAt(s, ParseStatements(s, 0).value.1) == '}'
    ensures var q := ParseStatements(s, 0).value.1;
      q < |s| && Parse(s[..q + 1] + t) == Ok(Block(ParseStatements(s, 0).value.0))
  {
    var r := ParseStatements(s, 0);
    var q := r.value.1;
    var u := s[..q + 1] + t;
    PrefixShared(s, t, q + 1);
    ParseStatementsShared(s, u, q + 1, 0);
    ProgramOfStatements(u, r);
  }

  /** `s` cut just after a `}` and continued with any `t`. */
  lemma PrefixShared(s: string, t: string, n: nat)
    requires 0 < n <= |s| && s[n - 1] == '}'
    ensures Shared(s, s[..n] + t, n)
  {
    var u := s[..n] + t;
    forall i | 0 <= i < n
      ensures s[i] == u[i]
    {
      assert u[i] == s[..n][i];
    }
  }

  lemma ProgramOfStatements(u: string, r: Parsed<seq<Ptr>>)
    requires ParseStatements(u, 0) == r && r.Ok?
    ensures Parse(u) == Ok(Block(r.value.0))
  {
  }

  // ---------------------------------------------------------------------
  // Reading characters

  lemma {:induction false} SkipWsShared(s: string, t: string, n: nat, p: nat)
    requires Shared(s, t, n) && p < n
    ensures SkipWs(s, p) < n && SkipWs(t, p) == SkipWs(s, p)
    decreases n - p
  {
    assert s[p] == t[p];
    if IsSpace(s[p]) {
      SkipWsShared(s, t, n, p + 1);
    }
  }

  lemma PeekShared(s: string, t: string, n: nat, p: nat)
    requires Shared(s, t, n) && p < n
    ensures Peek(t, p) == Peek(s, p) && Peek(s, p).1 < n
  {
    SkipWsShared(s, t, n, p);
    assert s[SkipWs(s, p)] == t[SkipWs(s, p)];
  }

  lemma GetShared(s: string, t: string, n: nat, p: nat)
    requires Shared(s, t, n) && p < n
    ensures Get(t, p) == Get(s, p) && Get(s, p).1 <= n
  {
    SkipWsShared(s, t, n, p);
    assert s[SkipWs(s, p)] == t[SkipWs(s, p)];
  }

  /** A keyword without `}` matches alike in both texts, and a match ends
   *  before the `}`. */
  lemma MatchShared(s: string, t: string, n: nat, p: nat, kw: string)
    requires Shared(s, t, n) && p < n && '}' !in kw
    ensures Match(t, p, kw) == Match(s, p, kw) && Match(s, p, kw).1 < n
  {
    SkipWsShared(s, t, n, p);
    var k := SkipWs(s, p);
    if k + |kw| < n {
      assert forall j | 0 <= j < |kw| :: s[k..][j] == t[k..][j] by {
        forall j | 0 <= j < |kw| ensures s[k..][j] == t[k..][j] {
          assert s[k + j] == t[k + j];
        }
      }
    } else {
      var j := n - 1 - k;
      assert s[k..][j] == '}' && t[k..][j] == '}';
      assert kw[j] != '}';
    }
  }

  predicate NoBrace(ops: seq<string>) {
    forall i | 0 <= i < |ops| :: '}' !in ops[i]
  }

  /** No operator of the expression grammar contains a `}`. */
  lemma OperatorsHaveNoBrace()
    ensures NoBrace(EqualityOps) && NoBrace(RelationalOps) && NoBrace(AdditiveOps) && NoBrace(TermOps)
  {
  }

  lemma {:induction false} MatchFirstShared(s: string, t: string, n: nat, p: nat, ops: seq<string>)
    requires Shared(s, t, n) && p < n && NoBrace(ops)
    ensures MatchFirst(t, p, ops) == MatchFirst(s, p, ops) && MatchFirst(s, p, ops).1 < n
    decreases |ops|
  {
    if |ops| > 0 {
      MatchShared(s, t, n, p, ops[0]);
      var (m, q) := Match(s, p, ops[0]);
      if !m {
        MatchFirstShared(s, t, n, q, ops[1..]);
      }
    }
  }

  lemma ExpectShared(s: string, t: string, n: nat, p: nat, c: char)
    requires Shared(s, t, n) && p < n
    ensures Expect(t, p, c) == Expect(s, p, c)
    ensures Expect(s, p, c).Ok? ==> Expect(s, p, c).value <= n
  {
    SkipWsShared(s, t, n, p);
    GetShared(s, t, n, SkipWs(s, p));
  }

  // ---------------------------------------------------------------------
  // Numbers and names: they stop at the `}` at the latest

  lemma {:induction false} NumberLoopShared(s: string, t: string, n: nat, p: nat, val: int32)
    requires Shared(s, t, n) && p < n && val >= 0
    ensures NumberLoop(t, p, val) == NumberLoop(s, p, val)
    ensures NumberLoop(s, p, val).Ok? ==> NumberLoop(s, p, val).value.1 < n
    decreases |s| - p
  {
    PeekShared(s, t, n, p);
    var (c, q) := Peek(s, p);
    if IsDigit(c) {
      GetShared(s, t, n, q);
      var (g, q1) := Get(s, q);
      var v := val as int * 10 + (g as int - '0' as int);
      if InRange(v) {
        NumberLoopShared(s, t, n, q1, v as int32);
      }
    }
  }

  lemma {:induction false} IdentifierLoopShared(s: string, t: string, n: nat, p: nat, name: string)
    requires Shared(s, t, n) && p < n
    ensures IdentifierLoop(t, p, name) == IdentifierLoop(s, p, name)
    ensures IdentifierLoop(s, p, name).value.1 < n
    decreases |s| - p
  {
    PeekShared(s, t, n, p);
    var (c, q) := Peek(s, p);
    if ContinuesIdentifier(c) {
      GetShared(s, t, n, q);
      var (g, q1) := Get(s, q);
      IdentifierLoopShared(s, t, n, q1, name + [g]);
    }
  }

  lemma ParseIdentifierShared(s: string, t: string, n: nat, p: nat)
    requires Shared(s, t, n) && p < n
    ensures ParseIdentifier(t, p) == ParseIdentifier(s, p)
    ensures ParseIdentifier(s, p).Ok? ==> ParseIdentifier(s, p).value.1 < n
  {
    SkipWsShared(s, t, n, p);
    var q := SkipWs(s, p);
    PeekShared(s, t, n, q);
    var (c, q1) := Peek(s, q);
    if StartsIdentifier(c) {
      GetShared(s, t, n, q1);
      var (g, q2) := Get(s, q1);
      IdentifierLoopShared(s, t, n, q2, [g]);
    }
  }

  // ---------------------------------------------------------------------
  // Statements

  lemma {:induction false} ParseStatementsShared(s: string, t: string, n: nat, p: nat)
    requires Shared(s, t, n) && p < n
    requires ParseStatements(s, p).Ok? && ParseStatements(s, p).value.1 < n
    ensures ParseStatements(t, p) == ParseStatements(s, p)
    decreases |s| - p, 21
  {
    StatementsLoopShared(s, t, n, p, []);
  }

  lemma {:induction false} StatementsLoopShared(s: string, t: string, n: nat, p: nat, acc: seq<Ptr>)
    requires Shared(s, t, n) && p < n && AllStmts(acc)
    requires StatementsLoop(s, p, acc).Ok? && StatementsLoop(s, p, acc).value.1 < n
    ensures StatementsLoop(t, p, acc) == StatementsLoop(s, p, acc)
    decreases |s| - p, 20
  {
    PeekShared(s, t, n, p);
    var (c, q) := Peek(s, p);
    if c != '\0' && c != '}' {
      ParseStatementShared(s, t, n, q);
      var (st, q1) := ParseStatement(s, q).value;
      StatementsLoopShared(s, t, n, q1, acc + [Some(st)]);
    }
  }

  lemma {:induction false} ParseStatementShared(s: string, t: string, n: nat, p: nat)
    requires Shared(s, t, n) && p < n
    requires ParseStatement(s, p).Ok? && ParseStatement(s, p).value.1 < n
    ensures ParseStatement(t, p) == ParseStatement(s, p)
    decreases |s| - p, 19
  {
    MatchShared(s, t, n, p, "if");
    var (isIf, p1) := Match(s, p, "if");
    if isIf {
      ParseIfShared(s, t, n, p1);
    } else {
      MatchShared(s, t, n, p1, "while");
      var (isWhile, p2) := Match(s, p1, "while");
      if isWhile {
        ParseWhileShared(s, t, n, p2);
      } else {
        MatchShared(s, t, n, p2, "print");
        var (isPrint, p3) := Match(s, p2, "print");
        if isPrint {
          ParsePrintShared(s, t, n, p3);
        } else {
          PeekShared(s, t, n, p3);
          var (c, p4) := Peek(s, p3);
          if c == '{' {
            ParseBlockShared(s, t, n, p4);
          } else if StartsIdentifier(c) {
            ParseIdentifierShared(s, t, n, p4);
            var p5 := ParseIdentifier(s, p4).value.1;
            SkipWsShared(s, t, n, p5);
            PeekShared(s, t, n, SkipWs(s, p5));
            if Peek(s, SkipWs(s, p5)).0 == '=' {
              ParseAssignmentShared(s, t, n, p4);
            } else {
              ParseExpressionStatementShared(s, t, n, p4);
            }
          } else {
            ParseExpressionStatementShared(s, t, n, p4);
          }
        }
      }
    }
  }

  lemma {:induction false} ParseExpressionStatementShared(s: string, t: string, n: nat, p: nat)
    requires Shared(s, t, n) && p < n
    requires ParseExpressionStatement(s, p).Ok? && ParseExpressionStatement(s, p).value.1 < n
    ensures ParseExpressionStatement(t, p) == ParseExpressionStatement(s, p)
    decreases |s| - p, 18
  {
    ParseExpressionShared(s, t, n, p);
    ExpectShared(s, t, n, ParseExpression(s, p).value.1, ';');
  }

  lemma {:induction false} ParseAssignmentShared(s: string, t: string, n: nat, p: nat)
    requires Shared(s, t, n) && p < n
    requires ParseAssignment(s, p).Ok? && ParseAssignment(s, p).value.1 < n
    ensures ParseAssignment(t, p) == ParseAssignment(s, p)
    decreases |s| - p, 18
  {
    ParseIdentifierShared(s, t, n, p);
    var q1 := ParseIdentifier(s, p).value.1;
    ExpectShared(s, t, n, q1, '=');
    var q2 := Expect(s, q1, '=').value;
    ParseExpressionShared(s, t, n, q2);
    ExpectShared(s, t, n, ParseExpression(s, q2).value.1, ';');
  }

  lemma {:induction false} ParenConditionShared(s: string, t: string, n: nat, p: nat)
    requires Shared(s, t, n) && p < n
    requires ParenCondition(s, p).Ok? && ParenCondition(s, p).value.1 < n
    ensures ParenCondition(t, p) == ParenCondition(s, p)
    decreases |s| - p, 17
  {
    ExpectShared(s, t, n, p, '(');
    var q1 := Expect(s, p, '(').value;
    ParseExpressionShared(s, t, n, q1);
    ExpectShared(s, t, n, ParseExpression(s, q1).value.1, ')');
  }

  lemma {:induction false} ParseIfShared(s: string, t: string, n: nat, p: nat)
    requires Shared(s, t, n) && p < n
    requires ParseIf(s, p).Ok? && ParseIf(s, p).value.1 < n
    ensures ParseIf(t, p) == ParseIf(s, p)
    decreases |s| - p, 18
  {
    IfParts(s, p);
    ParenConditionShared(s, t, n, p);
    var q1 := ParenCondition(s, p).value.1;
    ParseStatementShared(s, t, n, q1);
    var q2 := ParseStatement(s, q1).value.1;
    MatchShared(s, t, n, q2, "else");
    var (isElse, q3) := Match(s, q2, "else");
    if isElse {
      ParseStatementShared(s, t, n, q3);
    }
    IfFromParts(s, t, p);
  }

  /** The parts of an `if` that parses, and where each ends. */
  lemma IfParts(s: string, p: nat)
    requires p <= |s| && ParseIf(s, p).Ok?
    ensures ParenCondition(s, p).Ok?
    ensures var q1 := ParenCondition(s, p).value.1;
      ParseStatement(s, q1).Ok? && ParseStatement(s, q1).value.1 <= ParseIf(s, p).value.1 &&
      var (isElse, q3) := Match(s, ParseStatement(s, q1).value.1, "else");
      q3 <= ParseIf(s, p).value.1 &&
      (isElse ==> ParseStatement(s, q3).Ok? && ParseStatement(s, q3).value.1 == ParseIf(s, p).value.1)
  {
  }

  /** An `if` is the same in two texts whose parts are. */
  lemma IfFromParts(s: string, t: string, p: nat)
    requires p <= |s| && p <= |t|
    requires ParseIf(s, p).Ok? && ParenCondition(s, p).Ok? && ParenCondition(t, p) == ParenCondition(s, p)
    requires var q1 := ParenCondition(s, p).value.1;
      ParseStatement(s, q1).Ok? && q1 <= |t| && ParseStatement(t, q1) == ParseStatement(s, q1) &&
      var q2 := ParseStatement(s, q1).value.1;
      q2 <= |t| && Match(t, q2, "else") == Match(s, q2, "else") &&
      var (isElse, q3) := Match(s, q2, "else");
      isElse ==> q3 <= |t| && ParseStatement(t, q3) == ParseStatement(s, q3)
    ensures ParseIf(t, p) == ParseIf(s, p)
  {
  }

  lemma {:induction false} ParseWhileShared(s: string, t: string, n: nat, p: nat)
    requires Shared(s, t, n) && p < n
    requires ParseWhile(s, p).Ok? && ParseWhile(s, p).value.1 < n
    ensures ParseWhile(t, p) == ParseWhile(s, p)
    decreases |s| - p, 18
  {
    ParenConditionShared(s, t, n, p);
    ParseStatementShared(s, t, n, ParenCondition(s, p).value.1);
  }

  lemma {:induction false} ParseBlockShared(s: string, t: string, n: nat, p: nat)
    requires Shared(s, t, n) && p < n
    requires ParseBlock(s, p).Ok? && ParseBlock(s, p).value.1 < n
    ensures ParseBlock(t, p) == ParseBlock(s, p)
    decreases |s| - p, 18
  {
    ExpectShared(s, t, n, p, '{');
    var q1 := Expect(s, p, '{').value;
    ParseStatementsShared(s, t, n, q1);
    ExpectShared(s, t, n, ParseStatements(s, q1).value.1, '}');
  }

  lemma {:induction false} ParsePrintShared(s: string, t: string, n: nat, p: nat)
    requires Shared(s, t, n) && p < n
    requires ParsePrint(s, p).Ok? && ParsePrint(s, p).value.1 < n
    ensures ParsePrint(t, p) == ParsePrint(s, p)
    decreases |s| - p, 18
  {
    ParseExpressionShared(s, t, n, p);
    ExpectShared(s, t, n, ParseExpression(s, p).value.1, ';');
  }

  // ---------------------------------------------------------------------
  // Expressions

  lemma {:induction false} ParseExpressionShared(s: string, t: string, n: nat, p: nat)
    requires Shared(s, t, n) && p < n
    requires ParseExpression(s, p).Ok? && ParseExpression(s, p).value.1 < n
    ensures ParseExpression(t, p) == ParseExpression(s, p)
    decreases |s| - p, 17
  {
    ParseEqualityShared(s, t, n, p);
  }

  lemma {:induction false} ParseEqualityShared(s: string, t: string, n: nat, p: nat)
    requires Shared(s, t, n) && p < n
    requires ParseEquality(s, p).Ok? && ParseEquality(s, p).value.1 < n
    ensures ParseEquality(t, p) == ParseEquality(s, p)
    decreases |s| - p, 16
  {
    ParseRelationalShared(s, t, n, p);
    var (node, q) := ParseRelational(s, p).value;
    EqualityLoopShared(s, t, n, q, node);
  }

  lemma {:induction false} EqualityLoopShared(s: string, t: string, n: nat, p: nat, node: Node)
    requires Shared(s, t, n) && p < n && IsExpr(node)
    requires EqualityLoop(s, p, node).Ok? && EqualityLoop(s, p, node).value.1 < n
    ensures EqualityLoop(t, p, node) == EqualityLoop(s, p, node)
    decreases |s| - p, 15
  {
    OperatorsHaveNoBrace();
    MatchFirstShared(s, t, n, p, EqualityOps);
    var (op, q) := MatchFirst(s, p, EqualityOps);
    if op.Some? {
      ParseRelationalShared(s, t, n, q);
      var (right, q1) := ParseRelational(s, q).value;
      EqualityLoopShared(s, t, n, q1, BinaryExpr(op.value, Some(node), Some(right)));
    }
  }

  lemma {:induction false} ParseRelationalShared(s: string, t: string, n: nat, p: nat)
    requires Shared(s, t, n) && p < n
    requires ParseRelational(s, p).Ok? && ParseRelational(s, p).value.1 < n
    ensures ParseRelational(t, p) == ParseRelational(s, p)
    decreases |s| - p, 14
  {
    ParseAdditiveShared(s, t, n, p);
    var (node, q) := ParseAdditive(s, p).value;
    RelationalLoopShared(s, t, n, q, node);
  }

  lemma {:induction false} RelationalLoopShared(s: string, t: string, n: nat, p: nat, node: Node)
    requires Shared(s, t, n) && p < n && IsExpr(node)
    requires RelationalLoop(s, p, node).Ok? && RelationalLoop(s, p, node).value.1 < n
    ensures RelationalLoop(t, p, node) == RelationalLoop(s, p, node)
    decreases |s| - p, 13
  {
    OperatorsHaveNoBrace();
    MatchFirstShared(s, t, n, p, RelationalOps);
    var (op, q) := MatchFirst(s, p, RelationalOps);
    LongerRelationalNeverMatches(s, p);
    LongerRelationalNeverMatches(t, p);
    if op.Some? {
      ParseAdditiveShared(s, t, n, q);
      var (right, q1) := ParseAdditive(s, q).value;
      RelationalLoopShared(s, t, n, q1, BinaryExpr(op.value, Some(node), Some(right)));
    }
  }

  lemma {:induction false} ParseAdditiveShared(s: string, t: string, n: nat, p: nat)
    requires Shared(s, t, n) && p < n
    requires ParseAdditive(s, p).Ok? && ParseAdditive(s, p).value.1 < n
    ensures ParseAdditive(t, p) == ParseAdditive(s, p)
    decreases |s| - p, 12
  {
    ParseTermShared(s, t, n, p);
    var (node, q) := ParseTerm(s, p).value;
    AdditiveLoopShared(s, t, n, q, node);
  }

  lemma {:induction false} AdditiveLoopShared(s: string, t: string, n: nat, p: nat, node: Node)
    requires Shared(s, t, n) && p < n && IsExpr(node)
    requires AdditiveLoop(s, p, node).Ok? && AdditiveLoop(s, p, node).value.1 < n
    ensures AdditiveLoop(t, p, node) == AdditiveLoop(s, p, node)
    decreases |s| - p, 11
  {
    OperatorsHaveNoBrace();
    MatchFirstShared(s, t, n, p, AdditiveOps);
    var (op, q) := MatchFirst(s, p, AdditiveOps);
    if op.Some? {
      ParseTermShared(s, t, n, q);
      var (right, q1) := ParseTerm(s, q).value;
      AdditiveLoopShared(s, t, n, q1, BinaryExpr(op.value, Some(node), Some(right)));
    }
  }

  lemma {:induction false} ParseTermShared(s: string, t: string, n: nat, p: nat)
    requires Shared(s, t, n) && p < n
    requires ParseTerm(s, p).Ok? && ParseTerm(s, p).value.1 < n
    ensures ParseTerm(t, p) == ParseTerm(s, p)
    decreases |s| - p, 10
  {
    ParseFactorShared(s, t, n, p);
    var (node, q) := ParseFactor(s, p).value;
    TermLoopShared(s, t, n, q, node);
  }

  lemma {:induction false} TermLoopShared(s: string, t: string, n: nat, p: nat, node: Node)
    requires Shared(s, t, n) && p < n && IsExpr(node)
    requires TermLoop(s, p, node).Ok? && TermLoop(s, p, node).value.1 < n
    ensures TermLoop(t, p, node) == TermLoop(s, p, node)
    decreases |s| - p, 9
  {
    OperatorsHaveNoBrace();
    MatchFirstShared(s, t, n, p, TermOps);
    var (op, q) := MatchFirst(s, p, TermOps);
    if op.Some? {
      ParseFactorShared(s, t, n, q);
      var (right, q1) := ParseFactor(s, q).value;
      TermLoopShared(s, t, n, q1, BinaryExpr(op.value, Some(node), Some(right)));
    }
  }

  lemma {:induction false} ParseFactorShared(s: string, t: string, n: nat, p: nat)
    requires Shared(s, t, n) && p < n
    requires ParseFactor(s, p).Ok? && ParseFactor(s, p).value.1 < n
    ensures ParseFactor(t, p) == ParseFactor(s, p)
    decreases |s| - p, 8
  {
    PeekShared(s, t, n, p);
    var (c, q) := Peek(s, p);
    if IsDigit(c) {
      NumberLoopShared(s, t, n, q, 0);
    } else if c == '(' {
      GetShared(s, t, n, q);
      var q1 := Get(s, q).1;
      ParseExpressionShared(s, t, n, q1);
      ExpectShared(s, t, n, ParseExpression(s, q1).value.1, ')');
    } else if StartsIdentifier(c) {
      ParseIdentifierShared(s, t, n, q);
    }
  }
}
