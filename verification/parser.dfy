/** `Parser::ParserImpl` of parsers.cpp: the input text and a cursor `pos`
 *  that every member advances in place.  Each member is proved to leave the
 *  cursor where the matching function of module Grammar says, and to return
 *  what that function returns (`Agrees`); a thrown exception is an `Err`. */
module Parser {
  import opened Base
  import opened MachineInt
  import opened Ast
  import opened Grammar

  /** How `expect` agrees with Grammar.Expect. */
  predicate ExpectAgrees(st: Status, pos: nat, spec: Result<nat>) {
    match spec
    case Ok(q) => st == Pass && pos == q
    case Err(e) => st == Fail(e)
  }

  class ParserImpl {
    const input: string
    var pos: nat

    predicate Valid()
      reads this
    {
      pos <= |input|
    }

    /** The cursor starts at the first character. */
    constructor (text: string)
      ensures input == text && pos == 0 && Valid()
    {
      input := text;
      pos := 0;
    }

    /** `parse`: the root Block of all statements. */
    method Parse() returns (r: Result<Node>)
      requires Valid()
      modifies this
      ensures Valid()
      ensures Agrees(r, pos, Grammar.ParseProgram(input, old(pos)))
    {
      var stmts :- ParseStatements();
      return Ok(Block(stmts));
    }

    method SkipWhitespace()
      requires Valid()
      modifies this
      ensures Valid()
      ensures pos == SkipWs(input, old(pos))
    {
      while pos < |input| && IsSpace(input[pos])
        invariant old(pos) <= pos <= |input|
        invariant SkipWs(input, pos) == SkipWs(input, old(pos))
        decreases |input| - pos
      {
        pos := pos + 1;
      }
    }

    method PeekChar() returns (c: char)
      requires Valid()
      modifies this
      ensures Valid()
      ensures (c, pos) == Grammar.Peek(input, old(pos))
    {
      SkipWhitespace();
      if pos < |input| {
        return input[pos];
      }
      return '\0';
    }

    method GetChar() returns (c: char)
      requires Valid()
      modifies this
      ensures Valid()
      ensures (c, pos) == Grammar.Get(input, old(pos))
    {
      SkipWhitespace();
      if pos < |input| {
        c := input[pos];
        pos := pos + 1;
        return;
      }
      return '\0';
    }

    method MatchKeyword(kw: string) returns (b: bool)
      requires Valid()
      modifies this
      ensures Valid()
      ensures (b, pos) == Grammar.Match(input, old(pos), kw)
    {
      SkipWhitespace();
      if kw <= input[pos..] {
        pos := pos + |kw|;
        return true;
      }
      return false;
    }

    method Expect(c: char) returns (st: Status)
      requires Valid()
      modifies this
      ensures Valid()
      ensures ExpectAgrees(st, pos, Grammar.Expect(input, old(pos), c))
    {
      SkipWhitespace();
      var g := GetChar();
      if g != c {
        return Fail(Expected(c));
      }
      return Pass;
    }

    method ParseStatements() returns (r: Result<seq<Ptr>>)
      requires Valid()
      modifies this
      ensures Valid()
      ensures Agrees(r, pos, Grammar.ParseStatements(input, old(pos)))
      decreases |input| - pos, 21
    {
      var stmts: seq<Ptr> := [];
      while true
        invariant Valid() && old(pos) <= pos
        invariant AllStmts(stmts)
        invariant StatementsLoop(input, pos, stmts) == Grammar.ParseStatements(input, old(pos))
        decreases |input| - pos
      {
        var c := PeekChar();
        if c == '\0' || c == '}' {
          return Ok(stmts);
        }
        var stmt :- ParseStatement();
        stmts := stmts + [Some(stmt)];
      }
    }

    method ParseStatement() returns (r: Result<Node>)
      requires Valid()
      modifies this
      ensures Valid()
      ensures Agrees(r, pos, Grammar.ParseStatement(input, old(pos)))
      decreases |input| - pos, 19
    {
      var isIf := MatchKeyword("if");
      if isIf {
        r := ParseIf();
        return;
      }
      var isWhile := MatchKeyword("while");
      if isWhile {
        r := ParseWhile();
        return;
      }
      var isPrint := MatchKeyword("print");
      if isPrint {
        r := ParsePrint();
        return;
      }
      var c := PeekChar();
      if c == '{' {
        r := ParseBlock();
        return;
      }
      if StartsIdentifier(c) {
        var save := pos;
        var name := ParseIdentifier();
        assert name.Ok?;
        SkipWhitespace();
        var next := PeekChar();
        pos := save;
        if next == '=' {
          r := ParseAssignment();
          return;
        } else {
          var expr :- ParseExpression();
          :- Expect(';');
          return Ok(expr);
        }
      }
      var expr :- ParseExpression();
      :- Expect(';');
      return Ok(expr);
    }

    method ParseAssignment() returns (r: Result<Node>)
      requires Valid()
      modifies this
      ensures Valid()
      ensures Agrees(r, pos, Grammar.ParseAssignment(input, old(pos)))
      decreases |input| - pos, 18
    {
      var name :- ParseIdentifier();
      :- Expect('=');
      var value :- ParseExpression();
      :- Expect(';');
      return Ok(Assignment(name, Some(value)));
    }

    method ParseIf() returns (r: Result<Node>)
      requires Valid()
      modifies this
      ensures Valid()
      ensures Agrees(r, pos, Grammar.ParseIf(input, old(pos)))
      decreases |input| - pos, 18
    {
      var elseB: Ptr := None;
      :- Expect('(');
      var cond :- ParseExpression();
      :- Expect(')');
      var thenB :- ParseStatement();
      var isElse := MatchKeyword("else");
      if isElse {
        var e :- ParseStatement();
        elseB := Some(e);
      }
      return Ok(IfStmt(Some(cond), Some(thenB), elseB));
    }

    method ParseWhile() returns (r: Result<Node>)
      requires Valid()
      modifies this
      ensures Valid()
      ensures Agrees(r, pos, Grammar.ParseWhile(input, old(pos)))
      decreases |input| - pos, 18
    {
      var cond: Node, body: Node;
      :- Expect('(');
      cond :- ParseExpression();
      :- Expect(')');
      body :- ParseStatement();
      return Ok(WhileStmt(Some(cond), Some(body)));
    }

    method ParseBlock() returns (r: Result<Node>)
      requires Valid()
      modifies this
      ensures Valid()
      ensures Agrees(r, pos, Grammar.ParseBlock(input, old(pos)))
      decreases |input| - pos, 18
    {
      var stmts: seq<Ptr>;
      :- Expect('{');
      stmts :- ParseStatements();
      :- Expect('}');
      return Ok(Block(stmts));
    }

    method ParsePrint() returns (r: Result<Node>)
      requires Valid()
      modifies this
      ensures Valid()
      ensures Agrees(r, pos, Grammar.ParsePrint(input, old(pos)))
      decreases |input| - pos, 18
    {
      var expr :- ParseExpression();
      :- Expect(';');
      return Ok(PrintStmt(Some(expr)));
    }

    method ParseExpression() returns (r: Result<Node>)
      requires Valid()
      modifies this
      ensures Valid()
      ensures Agrees(r, pos, Grammar.ParseExpression(input, old(pos)))
      decreases |input| - pos, 17
    {
      r := ParseEquality();
    }

    method ParseEquality() returns (r: Result<Node>)
      requires Valid()
      modifies this
      ensures Valid()
      ensures Agrees(r, pos, Grammar.ParseEquality(input, old(pos)))
      decreases |input| - pos, 16
    {
      var node :- ParseRelational();
      assert EqualityOps[1..] == ["!="] && EqualityOps[1..][1..] == [];
      while true
        invariant Valid() && old(pos) <= pos
        invariant IsExpr(node)
        invariant EqualityLoop(input, pos, node) == Grammar.ParseEquality(input, old(pos))
        decreases |input| - pos
      {
        var op: string;
        var isEq := MatchKeyword("==");
        if isEq {
          op := "==";
        } else {
          var isNe := MatchKeyword("!=");
          if isNe {
            op := "!=";
          } else {
            return Ok(node);
          }
        }
        var rhs :- ParseRelational();
        node := BinaryExpr(op, Some(node), Some(rhs));
      }
    }

    /** The `<=` and `>=` branches are kept as in the source; they are never
     *  taken (Grammar.LongerRelationalNeverMatches). */
    method ParseRelational() returns (r: Result<Node>)
      requires Valid()
      modifies this
      ensures Valid()
      ensures Agrees(r, pos, Grammar.ParseRelational(input, old(pos)))
      decreases |input| - pos, 14
    {
      var node :- ParseAdditive();
      assert RelationalOps[1..] == [">", "<=", ">="];
      assert RelationalOps[1..][1..] == ["<=", ">="];
      assert RelationalOps[1..][1..][1..] == [">="];
      assert RelationalOps[1..][1..][1..][1..] == [];
      while true
        invariant Valid() && old(pos) <= pos
        invariant IsExpr(node)
        invariant RelationalLoop(input, pos, node) == Grammar.ParseRelational(input, old(pos))
        decreases |input| - pos
      {
        ghost var start := pos;
        LongerRelationalNeverMatches(input, start);
        var op: string;
        var isLt := MatchKeyword("<");
        if isLt {
          op := "<";
        } else {
          var isGt := MatchKeyword(">");
          if isGt {
            op := ">";
          } else {
            var isLe := MatchKeyword("<=");
            if isLe {
              op := "<=";
            } else {
              var isGe := MatchKeyword(">=");
              if isGe {
                op := ">=";
              } else {
                return Ok(node);
              }
            }
          }
        }
        var rhs :- ParseAdditive();
        node := BinaryExpr(op, Some(node), Some(rhs));
      }
    }

    method ParseAdditive() returns (r: Result<Node>)
      requires Valid()
      modifies this
      ensures Valid()
      ensures Agrees(r, pos, Grammar.ParseAdditive(input, old(pos)))
      decreases |input| - pos, 12
    {
      var node :- ParseTerm();
      assert AdditiveOps[1..] == ["-"] && AdditiveOps[1..][1..] == [];
      while true
        invariant Valid() && old(pos) <= pos
        invariant IsExpr(node)
        invariant AdditiveLoop(input, pos, node) == Grammar.ParseAdditive(input, old(pos))
        decreases |input| - pos
      {
        var op: string;
        var isPlus := MatchKeyword("+");
        if isPlus {
          op := "+";
        } else {
          var isMinus := MatchKeyword("-");
          if isMinus {
            op := "-";
          } else {
            return Ok(node);
          }
        }
        var rhs :- ParseTerm();
        node := BinaryExpr(op, Some(node), Some(rhs));
      }
    }

    method ParseTerm() returns (r: Result<Node>)
      requires Valid()
      modifies this
      ensures Valid()
      ensures Agrees(r, pos, Grammar.ParseTerm(input, old(pos)))
      decreases |input| - pos, 10
    {
      var node :- ParseFactor();
      assert TermOps[1..] == ["/"] && TermOps[1..][1..] == [];
      while true
        invariant Valid() && old(pos) <= pos
        invariant IsExpr(node)
        invariant TermLoop(input, pos, node) == Grammar.ParseTerm(input, old(pos))
        decreases |input| - pos
      {
        var op: string;
        var isTimes := MatchKeyword("*");
        if isTimes {
          op := "*";
        } else {
          var isDiv := MatchKeyword("/");
          if isDiv {
            op := "/";
          } else {
            return Ok(node);
          }
        }
        var rhs :- ParseFactor();
        node := BinaryExpr(op, Some(node), Some(rhs));
      }
    }

    method ParseFactor() returns (r: Result<Node>)
      requires Valid()
      modifies this
      ensures Valid()
      ensures Agrees(r, pos, Grammar.ParseFactor(input, old(pos)))
      decreases |input| - pos, 8
    {
      var c := PeekChar();
      if IsDigit(c) {
        var val: int32 := 0;
        while true
          invariant Valid() && old(pos) <= pos
          invariant val >= 0
          invariant NumberLoop(input, pos, val) == Grammar.ParseFactor(input, old(pos))
          decreases |input| - pos
        {
          var d := PeekChar();
          if !IsDigit(d) {
            return Ok(Literal(val));
          }
          var g := GetChar();
          var next := val as int * 10 + (g as int - '0' as int);
          if !InRange(next) {
            return Err(LiteralOverflow);
          }
          val := next as int32;
        }
      } else if c == '(' {
        var _ := GetChar();
        var node :- ParseExpression();
        :- Expect(')');
        return Ok(node);
      } else if StartsIdentifier(c) {
        // cannot fail: the next character starts an identifier
        var name := ParseIdentifier();
        assert name.Ok?;
        return Ok(Identifier(name.value));
      } else {
        return Err(UnexpectedCharacterInFactor);
      }
    }

    method ParseIdentifier() returns (r: Result<string>)
      requires Valid()
      modifies this
      ensures Valid()
      ensures Agrees(r, pos, Grammar.ParseIdentifier(input, old(pos)))
      decreases |input| - pos, 6
    {
      SkipWhitespace();
      var c := PeekChar();
      if !StartsIdentifier(c) {
        return Err(ExpectedIdentifier);
      }
      var first := GetChar();
      var name := [first];
      while true
        invariant Valid() && old(pos) <= pos
        invariant IdentifierLoop(input, pos, name) == Grammar.ParseIdentifier(input, old(pos))
        decreases |input| - pos
      {
        var d := PeekChar();
        if !ContinuesIdentifier(d) {
          return Ok(name);
        }
        var g := GetChar();
        name := name + [g];
      }
    }
  }
}
