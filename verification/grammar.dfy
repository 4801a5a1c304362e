/** The recursive-descent parser of parsers.cpp (class `Parser::ParserImpl`)
 *  written as functions of the input text `s` and a cursor position `p`.
 *  Each function returns what the C++ member returns together with the
 *  cursor position it leaves behind, or the error it throws.  The class in
 *  parser.dfy is proved to agree with these functions member by member.
 *
 *  Every character read goes through `SkipWs`, as every C++ read goes
 *  through `skipWhitespace()`; reading past the end yields '\0'. */
module Grammar {
  import opened Base
  import opened MachineInt
  import opened Ast

  /** A parse of a `T` that ends at a cursor position. */
  type Parsed<T> = Result<(T, nat)>

  // The character classes of <cctype>, in the "C" locale.
  predicate IsSpace(c: char) { c == ' ' || '\t' <= c <= '\r' }
  predicate IsDigit(c: char) { '0' <= c <= '9' }
  predicate IsAlpha(c: char) { 'a' <= c <= 'z' || 'A' <= c <= 'Z' }
  predicate IsAlnum(c: char) { IsAlpha(c) || IsDigit(c) }
  predicate StartsIdentifier(c: char) { IsAlpha(c) || c == '_' }
  predicate ContinuesIdentifier(c: char) { IsAlnum(c) || c == '_' }

  /** The character at `q`, or '\0' past the end. */
  function CharAt(s: string, q: nat): char {
    if q < |s| then s[q] else '\0'
  }

  /** `skipWhitespace`: the first position at or after `p` that does not
   *  hold white space. */
  function SkipWs(s: string, p: nat): (q: nat)
    requires p <= |s|
    ensures p <= q <= |s|
    ensures forall i | p <= i < q :: IsSpace(s[i])
    ensures q < |s| ==> !IsSpace(s[q])
    decreases |s| - p
  {
    if p < |s| && IsSpace(s[p]) then SkipWs(s, p + 1) else p
  }

  /** `peek`: skips white space and looks at the next character. */
  function Peek(s: string, p: nat): (r: (char, nat))
    requires p <= |s|
    ensures p <= r.1 <= |s|
  {
    var q := SkipWs(s, p);
    (CharAt(s, q), q)
  }

  /** `get`: skips white space and consumes the next character, if any. */
  function Get(s: string, p: nat): (r: (char, nat))
    requires p <= |s|
    ensures p <= r.1 <= |s|
  {
    var q := SkipWs(s, p);
    if q < |s| then (s[q], q + 1) else ('\0', q)
  }

  /** `match(kw)`: skips white space and consumes `kw` if the text there
   *  starts with it.  There is no word-boundary test. */
  function Match(s: string, p: nat, kw: string): (r: (bool, nat))
    requires p <= |s|
    ensures p <= r.1 <= |s|
    ensures r.0 ==> r.1 == SkipWs(s, p) + |kw|
  {
    var q := SkipWs(s, p);
    if kw <= s[q..] then (true, q + |kw|) else (false, q)
  }

  /** A chain of `match` calls tried in order, as in the `while (true)` loops
   *  of the binary levels: the first operator that matches, if any. */
  function MatchFirst(s: string, p: nat, ops: seq<string>): (r: (Option<string>, nat))
    requires p <= |s|
    ensures p <= r.1 <= |s|
    ensures r.0.Some? ==> r.0.value in ops && r.1 >= SkipWs(s, p) + |r.0.value|
    decreases |ops|
  {
    if |ops| == 0 then (None, p)
    else
      var (m, q) := Match(s, p, ops[0]);
      if m then (Some(ops[0]), q) else MatchFirst(s, q, ops[1..])
  }

  /** `expect(c)`: the next character must be `c`. */
  function Expect(s: string, p: nat, c: char): (r: Result<nat>)
    requires p <= |s|
    ensures r.Ok? ==> p <= r.value <= |s|
    ensures r.Ok? && c != '\0' ==> p < r.value
  {
    var (g, q) := Get(s, SkipWs(s, p));
    if g != c then Err(Expected(c)) else Ok(q)
  }

  // Operator levels, each list in the order the C++ code tries them.
  const EqualityOps: seq<string> := ["==", "!="]
  const RelationalOps: seq<string> := ["<", ">", "<=", ">="]
  const AdditiveOps: seq<string> := ["+", "-"]
  const TermOps: seq<string> := ["*", "/"]

  /** `parse`: the statements read up to the end of the input or the first
   *  unmatched '}', wrapped in one root Block. */
  function ParseProgram(s: string, p: nat): (r: Parsed<Node>)
    requires p <= |s|
    ensures r.Ok? ==> r.value.0.Block? && IsStmt(r.value.0) && p <= r.value.1 <= |s|
  {
    match ParseStatements(s, p)
    case Err(e) => Err(e)
    case Ok((ss, q)) => Ok((Block(ss), q))
  }

  /** The whole input parsed from its first character. */
  function Parse(s: string): (r: Result<Node>)
  {
    match ParseProgram(s, 0)
    case Err(e) => Err(e)
    case Ok((root, _)) => Ok(root)
  }

  predicate AllStmts(ss: seq<Ptr>) {
    forall i | 0 <= i < |ss| :: ss[i].Some? && IsStmt(ss[i].value)
  }

  /** `parseStatements`: statements up to the end of the input or a '}'
   *  (which is left unread). */
  function ParseStatements(s: string, p: nat): (r: Parsed<seq<Ptr>>)
    requires p <= |s|
    ensures r.Ok? ==> AllStmts(r.value.0) && p <= r.value.1 <= |s|
    ensures r.Ok? ==> CharAt(s, r.value.1) == '\0' || CharAt(s, r.value.1) == '}'
    decreases |s| - p, 21
  {
    StatementsLoop(s, p, [])
  }

  /** The loop of `parseStatements`, with the statements read so far. */
  function StatementsLoop(s: string, p: nat, acc: seq<Ptr>): (r: Parsed<seq<Ptr>>)
    requires p <= |s|
    requires AllStmts(acc)
    ensures r.Ok? ==> AllStmts(r.value.0) && p <= r.value.1 <= |s|
    ensures r.Ok? ==> CharAt(s, r.value.1) == '\0' || CharAt(s, r.value.1) == '}'
    decreases |s| - p, 20
  {
    var (c, q) := Peek(s, p);
    if c == '\0' || c == '}' then Ok((acc, q))
    else
      match ParseStatement(s, q)
      case Err(e) => Err(e)
      case Ok((st, q1)) => StatementsLoop(s, q1, acc + [Some(st)])
  }

  /** `parseStatement`: the keywords `if`, `while` and `print` are tried as
   *  raw prefixes, then a block, then an identifier followed by '=' (an
   *  assignment, reparsed from the saved position), else an expression
   *  statement. */
  function ParseStatement(s: string, p: nat): (r: Parsed<Node>)
    requires p <= |s|
    ensures r.Ok? ==> IsStmt(r.value.0) && p < r.value.1 <= |s|
    decreases |s| - p, 19
  {
    var (isIf, p1) := Match(s, p, "if");
    if isIf then ParseIf(s, p1)
    else
      var (isWhile, p2) := Match(s, p1, "while");
      if isWhile then ParseWhile(s, p2)
      else
        var (isPrint, p3) := Match(s, p2, "print");
        if isPrint then ParsePrint(s, p3)
        else
          var (c, p4) := Peek(s, p3);
          if c == '{' then ParseBlock(s, p4)
          else if StartsIdentifier(c) then
            match ParseIdentifier(s, p4)
            case Err(e) => Err(e)
            case Ok((_, p5)) =>
              var (next, _) := Peek(s, SkipWs(s, p5));
              if next == '=' then ParseAssignment(s, p4)
              else ParseExpressionStatement(s, p4)
          else ParseExpressionStatement(s, p4)
  }

  /** An expression followed by ';' (parsers.cpp:131-134 and 137-139). */
  function ParseExpressionStatement(s: string, p: nat): (r: Parsed<Node>)
    requires p <= |s|
    ensures r.Ok? ==> IsExpr(r.value.0) && p < r.value.1 <= |s|
    decreases |s| - p, 18
  {
    match ParseExpression(s, p)
    case Err(err) => Err(err)
    case Ok((e, q1)) =>
      match Expect(s, q1, ';')
      case Err(err) => Err(err)
      case Ok(q2) => Ok((e, q2))
  }

  /** `parseAssignment`: identifier '=' expression ';'. */
  function ParseAssignment(s: string, p: nat): (r: Parsed<Node>)
    requires p <= |s|
    ensures r.Ok? ==> r.value.0.Assignment? && IsStmt(r.value.0) && p < r.value.1 <= |s|
    decreases |s| - p, 18
  {
    match ParseIdentifier(s, p)
    case Err(err) => Err(err)
    case Ok((name, q1)) =>
      match Expect(s, q1, '=')
      case Err(err) => Err(err)
      case Ok(q2) =>
        match ParseExpression(s, q2)
        case Err(err) => Err(err)
        case Ok((e, q3)) =>
          match Expect(s, q3, ';')
          case Err(err) => Err(err)
          case Ok(q4) => Ok((Assignment(name, Some(e)), q4))
  }

  /** '(' expression ')', the head shared by `parseIf` and `parseWhile`. */
  function ParenCondition(s: string, p: nat): (r: Parsed<Node>)
    requires p <= |s|
    ensures r.Ok? ==> IsExpr(r.value.0) && p < r.value.1 <= |s|
    decreases |s| - p, 17
  {
    match Expect(s, p, '(')
    case Err(err) => Err(err)
    case Ok(q1) =>
      match ParseExpression(s, q1)
      case Err(err) => Err(err)
      case Ok((cond, q2)) =>
        match Expect(s, q2, ')')
        case Err(err) => Err(err)
        case Ok(q3) => Ok((cond, q3))
  }

  /** `parseIf`, entered after the keyword: '(' condition ')' statement, and
   *  an `else` statement only if `else` follows. */
  function ParseIf(s: string, p: nat): (r: Parsed<Node>)
    requires p <= |s|
    ensures r.Ok? ==> r.value.0.IfStmt? && IsStmt(r.value.0) && p < r.value.1 <= |s|
    decreases |s| - p, 18
  {
    match ParenCondition(s, p)
    case Err(err) => Err(err)
    case Ok((cond, q1)) =>
      match ParseStatement(s, q1)
      case Err(err) => Err(err)
      case Ok((thenB, q2)) =>
        var (isElse, q3) := Match(s, q2, "else");
        if isElse then
          match ParseStatement(s, q3)
          case Err(err) => Err(err)
          case Ok((elseB, q4)) => Ok((IfStmt(Some(cond), Some(thenB), Some(elseB)), q4))
        else
          Ok((IfStmt(Some(cond), Some(thenB), None), q3))
  }

  /** `parseWhile`, entered after the keyword: '(' condition ')' statement. */
  function ParseWhile(s: string, p: nat): (r: Parsed<Node>)
    requires p <= |s|
    ensures r.Ok? ==> r.value.0.WhileStmt? && IsStmt(r.value.0) && p < r.value.1 <= |s|
    decreases |s| - p, 18
  {
    match ParenCondition(s, p)
    case Err(err) => Err(err)
    case Ok((cond, q1)) =>
      match ParseStatement(s, q1)
      case Err(err) => Err(err)
      case Ok((body, q2)) => Ok((WhileStmt(Some(cond), Some(body)), q2))
  }

  /** `parseBlock`: '{' statements '}'. */
  function ParseBlock(s: string, p: nat): (r: Parsed<Node>)
    requires p <= |s|
    ensures r.Ok? ==> r.value.0.Block? && IsStmt(r.value.0) && p < r.value.1 <= |s|
    decreases |s| - p, 18
  {
    match Expect(s, p, '{')
    case Err(err) => Err(err)
    case Ok(q1) =>
      match ParseStatements(s, q1)
      case Err(err) => Err(err)
      case Ok((ss, q2)) =>
        match Expect(s, q2, '}')
        case Err(err) => Err(err)
        case Ok(q3) => Ok((Block(ss), q3))
  }

  /** `parsePrint`, entered after the keyword: expression ';'. */
  function ParsePrint(s: string, p: nat): (r: Parsed<Node>)
    requires p <= |s|
    ensures r.Ok? ==> r.value.0.PrintStmt? && IsStmt(r.value.0) && p < r.value.1 <= |s|
    decreases |s| - p, 18
  {
    match ParseExpression(s, p)
    case Err(err) => Err(err)
    case Ok((e, q1)) =>
      match Expect(s, q1, ';')
      case Err(err) => Err(err)
      case Ok(q2) => Ok((PrintStmt(Some(e)), q2))
  }

  /** `parseExpression`: the lowest precedence level. */
  function ParseExpression(s: string, p: nat): (r: Parsed<Node>)
    requires p <= |s|
    ensures r.Ok? ==> IsExpr(r.value.0) && p < r.value.1 <= |s|
    decreases |s| - p, 17
  {
    ParseEquality(s, p)
  }

  /** `parseEquality`: relational operands joined by `==` / `!=`. */
  function ParseEquality(s: string, p: nat): (r: Parsed<Node>)
    requires p <= |s|
    ensures r.Ok? ==> IsExpr(r.value.0) && p < r.value.1 <= |s|
    decreases |s| - p, 16
  {
    match ParseRelational(s, p)
    case Err(e) => Err(e)
    case Ok((n, q)) => EqualityLoop(s, q, n)
  }

  /** The loop of `parseEquality`, folding leftward into `node`. */
  function EqualityLoop(s: string, p: nat, node: Node): (r: Parsed<Node>)
    requires p <= |s|
    requires IsExpr(node)
    ensures r.Ok? ==> IsExpr(r.value.0) && p <= r.value.1 <= |s|
    decreases |s| - p, 15
  {
    var (op, q) := MatchFirst(s, p, EqualityOps);
    match op
    case None => Ok((node, q))
    case Some(o) =>
      match ParseRelational(s, q)
      case Err(e) => Err(e)
      case Ok((t, q1)) => EqualityLoop(s, q1, BinaryExpr(o, Some(node), Some(t)))
  }

  /** `parseRelational`: additive operands joined by `<`, `>`, `<=`, `>=`. */
  function ParseRelational(s: string, p: nat): (r: Parsed<Node>)
    requires p <= |s|
    ensures r.Ok? ==> IsExpr(r.value.0) && p < r.value.1 <= |s|
    decreases |s| - p, 14
  {
    match ParseAdditive(s, p)
    case Err(e) => Err(e)
    case Ok((n, q)) => RelationalLoop(s, q, n)
  }

  /** The second `match` of a chain starts where the first left the cursor,
   *  which is already past the white space; so once `<` (or `>`) fails to
   *  match, `<=` (or `>=`) cannot match either. */
  lemma LongerRelationalNeverMatches(s: string, p: nat)
    requires p <= |s|
    ensures MatchFirst(s, p, RelationalOps).0 != Some("<=")
    ensures MatchFirst(s, p, RelationalOps).0 != Some(">=")
  {
    var q := SkipWs(s, p);
    assert SkipWs(s, q) == q;
    assert RelationalOps[1..] == [">", "<=", ">="];
    assert RelationalOps[1..][1..] == ["<=", ">="];
    assert RelationalOps[1..][1..][1..] == [">="];

  }

  /** The loop of `parseRelational`.  Its `<=` and `>=` branches exist in the
   *  source but are never taken (LongerRelationalNeverMatches). */
  function RelationalLoop(s: string, p: nat, node: Node): (r: Parsed<Node>)
    requires p <= |s|
    requires IsExpr(node)
    ensures r.Ok? ==> IsExpr(r.value.0) && p <= r.value.1 <= |s|
    decreases |s| - p, 13
  {
    var (op, q) := MatchFirst(s, p, RelationalOps);
    match op
    case None => Ok((node, q))
    case Some(o) =>
      LongerRelationalNeverMatches(s, p);
      match ParseAdditive(s, q)
      case Err(e) => Err(e)
      case Ok((t, q1)) => RelationalLoop(s, q1, BinaryExpr(o, Some(node), Some(t)))
  }

  /** `parseAdditive`: term operands joined by `+` / `-`. */
  function ParseAdditive(s: string, p: nat): (r: Parsed<Node>)
    requires p <= |s|
    ensures r.Ok? ==> IsExpr(r.value.0) && p < r.value.1 <= |s|
    decreases |s| - p, 12
  {
    match ParseTerm(s, p)
    case Err(e) => Err(e)
    case Ok((n, q)) => AdditiveLoop(s, q, n)
  }

  function AdditiveLoop(s: string, p: nat, node: Node): (r: Parsed<Node>)
    requires p <= |s|
    requires IsExpr(node)
    ensures r.Ok? ==> IsExpr(r.value.0) && p <= r.value.1 <= |s|
    decreases |s| - p, 11
  {
    var (op, q) := MatchFirst(s, p, AdditiveOps);
    match op
    case None => Ok((node, q))
    case Some(o) =>
      match ParseTerm(s, q)
      case Err(e) => Err(e)
      case Ok((t, q1)) => AdditiveLoop(s, q1, BinaryExpr(o, Some(node), Some(t)))
  }

  /** `parseTerm`: factor operands joined by `*` / `/`. */
  function ParseTerm(s: string, p: nat): (r: Parsed<Node>)
    requires p <= |s|
    ensures r.Ok? ==> IsExpr(r.value.0) && p < r.value.1 <= |s|
    decreases |s| - p, 10
  {
    match ParseFactor(s, p)
    case Err(e) => Err(e)
    case Ok((n, q)) => TermLoop(s, q, n)
  }

  function TermLoop(s: string, p: nat, node: Node): (r: Parsed<Node>)
    requires p <= |s|
    requires IsExpr(node)
    ensures r.Ok? ==> IsExpr(r.value.0) && p <= r.value.1 <= |s|
    decreases |s| - p, 9
  {
    var (op, q) := MatchFirst(s, p, TermOps);
    match op
    case None => Ok((node, q))
    case Some(o) =>
      match ParseFactor(s, q)
      case Err(e) => Err(e)
      case Ok((t, q1)) => TermLoop(s, q1, BinaryExpr(o, Some(node), Some(t)))
  }

  /** `parseFactor`: a number, a parenthesised expression or an identifier. */
  function ParseFactor(s: string, p: nat): (r: Parsed<Node>)
    requires p <= |s|
    ensures r.Ok? ==> IsExpr(r.value.0) && p < r.value.1 <= |s|
    decreases |s| - p, 8
  {
    var (c, q) := Peek(s, p);
    if IsDigit(c) then NumberLoop(s, q, 0)
    else if c == '(' then
      var (_, q1) := Get(s, q);
      match ParseExpression(s, q1)
      case Err(err) => Err(err)
      case Ok((e, q2)) =>
        match Expect(s, q2, ')')
        case Err(err) => Err(err)
        case Ok(q3) => Ok((e, q3))
    else if StartsIdentifier(c) then
      match ParseIdentifier(s, q)
      case Err(e) => Err(e)
      case Ok((name, q1)) => Ok((Identifier(name), q1))
    else Err(UnexpectedCharacterInFactor)
  }

  /** The digit loop of `parseFactor`: `val = val * 10 + digit` while the
   *  next non-blank character is a digit, so blanks between digits are
   *  skipped.  A value beyond the `int` range is LiteralOverflow. */
  function NumberLoop(s: string, p: nat, val: int32): (r: Parsed<Node>)
    requires p <= |s|
    requires val >= 0
    ensures r.Ok? ==> r.value.0.Literal? && r.value.0.value >= val && p <= r.value.1 <= |s|
    ensures r.Ok? && IsDigit(CharAt(s, SkipWs(s, p))) ==> p < r.value.1
    decreases |s| - p, 7
  {
    var (c, q) := Peek(s, p);
    if IsDigit(c) then
      var (g, q1) := Get(s, q);
      var v := val as int * 10 + (g as int - '0' as int);
      if InRange(v) then NumberLoop(s, q1, v as int32) else Err(LiteralOverflow)
    else Ok((Literal(val), q))
  }

  /** `parseIdentifier`: a letter or '_' and then letters, digits and '_',
   *  with blanks between them skipped. */
  function ParseIdentifier(s: string, p: nat): (r: Parsed<string>)
    requires p <= |s|
    ensures r.Ok? ==> |r.value.0| > 0 && p < r.value.1 <= |s|
    ensures r.Err? <==> !StartsIdentifier(CharAt(s, SkipWs(s, p)))
    ensures r.Err? ==> r.error == ExpectedIdentifier
    decreases |s| - p, 6
  {
    var q := SkipWs(s, p);
    var (c, q1) := Peek(s, q);
    if StartsIdentifier(c) then
      var (g, q2) := Get(s, q1);
      IdentifierLoop(s, q2, [g])
    else Err(ExpectedIdentifier)
  }

  function IdentifierLoop(s: string, p: nat, name: string): (r: Parsed<string>)
    requires p <= |s|
    ensures r.Ok? && p <= r.value.1 <= |s| && |r.value.0| >= |name|
    decreases |s| - p, 5
  {
    var (c, q) := Peek(s, p);
    if ContinuesIdentifier(c) then
      var (g, q1) := Get(s, q);
      IdentifierLoop(s, q1, name + [g])
    else Ok((name, q))
  }

  /** How a parser member that returns a value and moves the cursor agrees
   *  with the function that specifies it. */
  predicate Agrees<T(==)>(r: Result<T>, pos: nat, spec: Parsed<T>) {
    match spec
    case Ok((v, q)) => r == Ok(v) && pos == q
    case Err(e) => r == Err(e)
  }
}
