/**
 * What the parser does with whole inputs: the binding-power table, the
 * fold step of the expression loop that makes operators of equal
 * precedence associate to the left, and the parser's own test inputs,
 * parsed and rendered.
 */
module ParserFacts {
  import opened Wrappers
  import opened Tokens
  import opened Ast
  import opened Parsing
  import Strconv

  /** `Precedence` looks up PRECEDENCES, and the binding powers grow from `==` to `[`. */
  lemma PrecedenceTable(t: TokenType)
    ensures Precedence(t) == (if t in PRECEDENCES then PRECEDENCES[t] else LOWEST)
    ensures LOWEST < EQUALS < LESSGREATER < SUM < PRODUCT < PREFIX < CALL < INDEX
  {
  }

  // ---------------------------------------------------------------------------
  // One step of parseExpression

  /** The loop stops at `;` and at a peeked token that binds no tighter than the minimum. */
  lemma LoopStops(s: PState, left: Expr, precedence: int)
    requires Good(s) && Agrees(left)
    requires Peeked(s).kind == SEMICOLON || Precedence(Peeked(s).kind) <= precedence
    ensures ExpressionLoop(s, left, precedence) == Parsed(left, s)
  {
  }

  /**
   * A peeked operator that binds tighter becomes the root of the left
   * expression, with a right operand parsed at the operator's own
   * precedence; the loop then goes on with the new left expression.
   */
  lemma LoopFoldsOperator(s: PState, left: Expr, precedence: int)
    requires Good(s) && Agrees(left)
    requires IsOperator(Peeked(s).kind) && precedence < Precedence(Peeked(s).kind)
    ensures var op := Peeked(s);
            var right := ParseExpression(NextToken(NextToken(s)), Precedence(op.kind));
            ExpressionLoop(s, left, precedence)
            == ExpressionLoop(right.state, Infix(op, left, op.literal, right.node), precedence)
  {
    var s1 := NextToken(s);
    assert Current(s1) == Peeked(s);
    assert ParseInfix(s1, left) == ParseInfixExpression(s1, left);
  }

  /**
   * A final operator: the loop folds it and then stops, because what follows
   * its right operand binds no tighter than the minimum.
   */
  lemma FoldLast(s: PState, left: Expr, precedence: int, right: Expr, after: PState)
    requires Good(s) && Agrees(left)
    requires IsOperator(Peeked(s).kind) && precedence < Precedence(Peeked(s).kind)
    requires ParseExpression(NextToken(NextToken(s)), Precedence(Peeked(s).kind)) == Parsed(right, after)
    requires Good(after) && (Peeked(after).kind == SEMICOLON || Precedence(Peeked(after).kind) <= precedence)
    ensures ExpressionLoop(s, left, precedence) == Parsed(Infix(Peeked(s), left, Peeked(s).literal, right), after)
  {
    LoopFoldsOperator(s, left, precedence);
    LoopStops(after, Infix(Peeked(s), left, Peeked(s).literal, right), precedence);
  }

  /** An identifier whose peeked token binds no tighter than the minimum is the whole expression. */
  lemma IdentifierAlone(s: PState, precedence: int)
    requires Good(s) && Current(s).kind == IDENT
    requires Peeked(s).kind == SEMICOLON || Precedence(Peeked(s).kind) <= precedence
    ensures ParseExpression(s, precedence) == Parsed(Ident(Identifier(Current(s), Current(s).literal)), s)
  {
    LoopStops(s, Ident(Identifier(Current(s), Current(s).literal)), precedence);
  }

  /** An identifier is the left expression the loop starts from. */
  lemma IdentifierOperand(s: PState, precedence: int)
    requires Good(s) && Current(s).kind == IDENT
    ensures ParseExpression(s, precedence)
         == ExpressionLoop(s, Ident(Identifier(Current(s), Current(s).literal)), precedence)
  {
  }

  /** `true` and `false` start the loop as boolean literals. */
  lemma BooleanOperand(s: PState, precedence: int)
    requires Good(s) && (Current(s).kind == TRUE || Current(s).kind == FALSE)
    ensures ParseExpression(s, precedence)
         == ExpressionLoop(s, BooleanLiteral(Current(s), Current(s).kind == TRUE), precedence)
  {
    assert HasPrefixFn(Current(s).kind);
    assert ParsePrefix(s) == ParseBoolean(s);
  }

  /** A boolean literal whose peeked token binds no tighter than the minimum is the whole expression. */
  lemma BooleanAlone(s: PState, precedence: int)
    requires Good(s) && (Current(s).kind == TRUE || Current(s).kind == FALSE)
    requires Peeked(s).kind == SEMICOLON || Precedence(Peeked(s).kind) <= precedence
    ensures ParseExpression(s, precedence) == Parsed(BooleanLiteral(Current(s), Current(s).kind == TRUE), s)
  {
    BooleanOperand(s, precedence);
    LoopStops(s, BooleanLiteral(Current(s), Current(s).kind == TRUE), precedence);
  }

  /** `-x` and `!x` take as operand an expression parsed at PREFIX precedence, then the loop goes on. */
  lemma PrefixOperand(s: PState, precedence: int)
    requires Good(s) && (Current(s).kind == BANG || Current(s).kind == MINUS)
    ensures var op := Current(s);
            var right := ParseExpression(NextToken(s), PREFIX);
            ParseExpression(s, precedence)
            == ExpressionLoop(right.state, Prefix(op, op.literal, right.node), precedence)
  {
    assert HasPrefixFn(Current(s).kind);
    assert ParsePrefix(s) == ParsePrefixExpression(s);
  }

  /** A parenthesised expression adds no node: the inner expression is the loop's left expression. */
  lemma GroupedOperand(s: PState, precedence: int)
    requires Good(s) && Current(s).kind == LPAREN
    requires Peeked(ParseExpression(NextToken(s), LOWEST).state).kind == RPAREN
    ensures var inner := ParseExpression(NextToken(s), LOWEST);
            ParseExpression(s, precedence) == ExpressionLoop(NextToken(inner.state), inner.node, precedence)
  {
    assert HasPrefixFn(Current(s).kind);
    assert ParsePrefix(s) == ParseGroupedExpression(s);
  }

  /**
   * The fold step with its outcome named: once the peeked operator's right
   * operand is known to parse to `right` ending at `n`, the loop goes on
   * from `n` with `folded`, the infix node of `left`, the operator and `right`.
   */
  lemma FoldOperand(s: PState, left: Expr, precedence: int, right: Expr, n: PState, folded: Expr)
    requires Good(s) && Agrees(left)
    requires IsOperator(Peeked(s).kind) && precedence < Precedence(Peeked(s).kind)
    requires ParseExpression(NextToken(NextToken(s)), Precedence(Peeked(s).kind)) == Parsed(right, n)
    requires folded == Infix(Peeked(s), left, Peeked(s).literal, right)
    ensures ExpressionLoop(s, left, precedence) == ExpressionLoop(n, folded, precedence)
  {
    LoopFoldsOperator(s, left, precedence);
  }

  /** The node a one-token operand parses to: an identifier or a boolean literal. */
  function Leaf(t: Token): (e: Expr)
    requires t.kind == IDENT || t.kind == TRUE || t.kind == FALSE
    ensures Agrees(e) && Renderable(e)
  {
    if t.kind == IDENT then Ident(Identifier(t, t.literal)) else BooleanLiteral(t, t.kind == TRUE)
  }

  /** A one-token operand is the left expression the loop starts from. */
  lemma LeafOperand(s: PState, precedence: int, leaf: Expr)
    requires Good(s) && (Current(s).kind == IDENT || Current(s).kind == TRUE || Current(s).kind == FALSE)
    requires leaf == Leaf(Current(s))
    ensures ParseExpression(s, precedence) == ExpressionLoop(s, leaf, precedence)
  {
    if Current(s).kind == IDENT {
      IdentifierOperand(s, precedence);
    } else {
      BooleanOperand(s, precedence);
    }
  }

  /** A one-token operand followed by a token that binds no tighter is the whole expression. */
  lemma LeafAlone(s: PState, precedence: int, leaf: Expr)
    requires Good(s) && (Current(s).kind == IDENT || Current(s).kind == TRUE || Current(s).kind == FALSE)
    requires Peeked(s).kind == SEMICOLON || Precedence(Peeked(s).kind) <= precedence
    requires leaf == Leaf(Current(s))
    ensures ParseExpression(s, precedence) == Parsed(leaf, s)
  {
    LeafOperand(s, precedence, leaf);
    LoopStops(s, leaf, precedence);
  }

  /** The fold step for a one-token right operand, which binds no looser than the operator. */
  lemma FoldLeaf(s: PState, left: Expr, precedence: int, n: PState, folded: Expr)
    requires Good(s) && Agrees(left)
    requires IsOperator(Peeked(s).kind) && precedence < Precedence(Peeked(s).kind)
    requires n == NextToken(NextToken(s))
    requires Current(n).kind == IDENT || Current(n).kind == TRUE || Current(n).kind == FALSE
    requires Peeked(n).kind == SEMICOLON || Precedence(Peeked(n).kind) <= Precedence(Peeked(s).kind)
    requires folded == Infix(Peeked(s), left, Peeked(s).literal, Leaf(Current(n)))
    ensures ExpressionLoop(s, left, precedence) == ExpressionLoop(n, folded, precedence)
  {
    LeafAlone(n, Precedence(Peeked(s).kind), Leaf(Current(n)));
    FoldOperand(s, left, precedence, Leaf(Current(n)), n, folded);
  }

  /** A prefix operator with its outcome named: its operand parses to `operand`, ending at `n`. */
  lemma PrefixWith(s: PState, precedence: int, operand: Expr, n: PState, node: Expr)
    requires Good(s) && (Current(s).kind == BANG || Current(s).kind == MINUS)
    requires ParseExpression(NextToken(s), PREFIX) == Parsed(operand, n)
    requires node == Prefix(Current(s), Current(s).literal, operand)
    ensures ParseExpression(s, precedence) == ExpressionLoop(n, node, precedence)
  {
    PrefixOperand(s, precedence);
  }

  /** An integer literal that `ParseInt` accepts starts the loop with its value. */
  lemma IntegerOperand(s: PState, precedence: int, v: int)
    requires Good(s) && Current(s).kind == INT && Strconv.ParseInt(Current(s).literal) == Some(v)
    ensures ParseExpression(s, precedence) == ExpressionLoop(s, IntegerLiteral(Current(s), v), precedence)
  {
  }

  /**
   * `ParseProgram` keeps an expression statement made of the whole parsed
   * expression, skips an optional `;`, steps past it and goes on.
   */
  lemma ExpressionStatementStep(s: PState, acc: seq<Stmt>, e: Expr, after: PState)
    requires Good(s) && StmtsAgree(acc)
    requires Current(s).kind != EOF && Current(s).kind != LET && Current(s).kind != RETURN
    requires ParseExpression(s, LOWEST) == Parsed(e, after)
    ensures Good(after) && StmtsAgree(acc + [ExpressionStatement(Current(s), e)])
    ensures ProgramStatements(s, acc)
         == ProgramStatements(NextToken(SkipSemicolon(after)), acc + [ExpressionStatement(Current(s), e)])
  {
    var statement := ExpressionStatement(Current(s), e);
    assert ParseStatement(s) == ParseExpressionStatement(s) == Parsed(statement, SkipSemicolon(after));
  }

  /** `ParseProgram` stops at EOF with the statements it has. */
  lemma ProgramEnds(s: PState, acc: seq<Stmt>)
    requires Good(s) && StmtsAgree(acc) && Current(s).kind == EOF
    ensures ProgramStatements(s, acc) == Parsed(acc, s)
  {
  }

  /** A token stream holding one expression statement parses to a program of just that statement. */
  lemma SingleExpressionProgram(ts: seq<Token>, e: Expr, after: PState)
    requires IsTokenStream(ts) && ts[0].kind != EOF && ts[0].kind != LET && ts[0].kind != RETURN
    requires ParseExpression(PState(ts, 0, []), LOWEST) == Parsed(e, after)
    requires Good(after) && Current(NextToken(SkipSemicolon(after))).kind == EOF
    ensures ParseProgram(ts) == Parsed(Program([ExpressionStatement(ts[0], e)]), NextToken(SkipSemicolon(after)))
  {
    ExpressionStatementStep(PState(ts, 0, []), [], e, after);
    ProgramEnds(NextToken(SkipSemicolon(after)), [ExpressionStatement(ts[0], e)]);
  }

  /**
   * The same with the expression's end named by its index: an optional
   * semicolon follows it, then the end of input.
   */
  lemma ExpressionProgramAt(ts: seq<Token>, e: Expr, i: nat)
    requires IsTokenStream(ts) && ts[0].kind != EOF && ts[0].kind != LET && ts[0].kind != RETURN
    requires i + 2 == |ts| || (i + 3 == |ts| && ts[i + 1].kind == SEMICOLON)
    requires ParseExpression(PState(ts, 0, []), LOWEST) == Parsed(e, PState(ts, i, []))
    ensures ParseProgram(ts) == Parsed(Program([ExpressionStatement(ts[0], e)]), PState(ts, |ts| - 1, []))
  {
    InputEndsAt(ts, i);
    SingleExpressionProgram(ts, e, PState(ts, i, []));
  }

  /** Two steps along a token stream, away from its end. */
  lemma TwoAhead(ts: seq<Token>, i: nat)
    requires IsTokenStream(ts) && i + 2 < |ts|
    ensures Good(PState(ts, i, [])) && NextToken(NextToken(PState(ts, i, []))) == PState(ts, i + 2, [])
  {
  }

  /** From the last token of an expression, an optional semicolon and then the end of input. */
  lemma InputEndsAt(ts: seq<Token>, i: nat)
    requires IsTokenStream(ts)
    requires i + 2 == |ts| || (i + 3 == |ts| && ts[i + 1].kind == SEMICOLON)
    ensures Good(PState(ts, i, []))
    ensures NextToken(SkipSemicolon(PState(ts, i, []))) == PState(ts, |ts| - 1, [])
    ensures Current(PState(ts, |ts| - 1, [])).kind == EOF
  {
  }

  /** A program of one expression statement renders as the expression. */
  lemma ExpressionProgramText(t: Token, x: Expr, text: string)
    requires Renderable(x) && String(x) == text
    ensures ProgramString(Program([ExpressionStatement(t, x)])) == text
  {
    SingleStatementText(ExpressionStatement(t, x));
  }

  /** A program of one statement renders as that statement; of two, as both back to back. */
  lemma ProgramRendering(a: Stmt, b: Stmt)
    requires StmtRenderable(a) && StmtRenderable(b)
    ensures ProgramString(Program([a])) == StmtString(a)
    ensures ProgramString(Program([a, b])) == StmtString(a) + StmtString(b)
  {
    SingleStatementText(a);
    TwoStatementsText(a, b);
  }

  lemma SingleStatementText(a: Stmt)
    requires StmtRenderable(a)
    ensures ProgramString(Program([a])) == StmtString(a)
  {
    assert seq(1, i requires 0 <= i < 1 => StmtString([a][i])) == [StmtString(a)];
  }

  lemma TwoStatementsText(a: Stmt, b: Stmt)
    requires StmtRenderable(a) && StmtRenderable(b)
    ensures ProgramString(Program([a, b])) == StmtString(a) + StmtString(b)
  {
    var parts := seq(2, i requires 0 <= i < 2 => StmtString([a, b][i]));
    assert parts == [StmtString(a)] + [StmtString(b)];
    Text.ConcatenationJoin([StmtString(a)], [StmtString(b)]);
  }

  // ---------------------------------------------------------------------------
  // The parser's test inputs, as the lexer tokenises them. Each is parsed in
  // steps over fixed states of its token stream, then rendered.

  function Id(n: string): Token { Token(IDENT, n) }
  function Var(n: string): (e: Expr)
    ensures Renderable(e) && Agrees(e)
  {
    Leaf(Id(n))
  }

  // a + b - c

  /** The token stream of `a + b - c;`. */
  predicate AbcTokens(ts: seq<Token>)
  {
    |ts| == 7 && ts[0] == Id("a") && ts[1] == Token(PLUS, "+") && ts[2] == Id("b")
    && ts[3] == Token(MINUS, "-") && ts[4] == Id("c") && ts[5] == Token(SEMICOLON, ";")
    && ts[6] == Token(EOF, "")
  }

  function AbTree(): (e: Expr)
    ensures Renderable(e) && Agrees(e)
  {
    Infix(Token(PLUS, "+"), Var("a"), "+", Var("b"))
  }
  function AbcTree(): (e: Expr)
    ensures Renderable(e) && Agrees(e)
  {
    Infix(Token(MINUS, "-"), AbTree(), "-", Var("c"))
  }

  /** After `a`, the loop folds `+` first, then `-` with `(a + b)` as its left operand. */
  lemma AbcFolds(s0: PState, s2: PState, s4: PState)
    requires Good(s0) && Current(s0) == Id("a") && Peeked(s0) == Token(PLUS, "+") && NextToken(NextToken(s0)) == s2
    requires Current(s2) == Id("b") && Peeked(s2) == Token(MINUS, "-") && NextToken(NextToken(s2)) == s4
    requires Current(s4) == Id("c") && Peeked(s4).kind == SEMICOLON
    ensures ParseExpression(s0, LOWEST) == Parsed(AbcTree(), s4)
  {
    AbFolds(s0, s2);
    BcFolds(s2, s4);
  }

  /** The first turn of the loop on `a + b - c`: `+` is folded and the loop goes on at `b`. */
  lemma AbFolds(s0: PState, s2: PState)
    requires Good(s0) && Current(s0) == Id("a") && Peeked(s0) == Token(PLUS, "+") && NextToken(NextToken(s0)) == s2
    requires Current(s2) == Id("b") && Peeked(s2).kind == MINUS
    ensures ParseExpression(s0, LOWEST) == ExpressionLoop(s2, AbTree(), LOWEST)
  {
    LeafOperand(s0, LOWEST, Var("a"));
    FoldLeaf(s0, Var("a"), LOWEST, s2, AbTree());
  }

  /** The second turn of the loop on `a + b - c`: `-` is folded onto `(a + b)` and the loop stops at `c`. */
  lemma BcFolds(s2: PState, s4: PState)
    requires Good(s2) && Current(s2) == Id("b") && Peeked(s2) == Token(MINUS, "-") && NextToken(NextToken(s2)) == s4
    requires Current(s4) == Id("c") && Peeked(s4).kind == SEMICOLON
    ensures ExpressionLoop(s2, AbTree(), LOWEST) == Parsed(AbcTree(), s4)
  {
    FoldLeaf(s2, AbTree(), LOWEST, s4, AbcTree());
    LoopStops(s4, AbcTree(), LOWEST);
  }

  lemma AbcText()
    ensures String(AbcTree()) == "((a + b) - c)"
  {
    assert String(AbTree()) == "(a + b)";
  }

  lemma AbcRendering()
    ensures ProgramString(Program([ExpressionStatement(Id("a"), AbcTree())])) == "((a + b) - c)"
  {
    AbcText();
    ExpressionProgramText(Id("a"), AbcTree(), "((a + b) - c)");
  }

  /** The states the parse of `a + b - c;` passes through, as its token stream fixes them. */
  lemma AbcSteps(ts: seq<Token>)
    requires AbcTokens(ts)
    ensures IsTokenStream(ts)
    ensures var s0, s2, s4 := PState(ts, 0, []), PState(ts, 2, []), PState(ts, 4, []);
            Good(s0) && Current(s0) == Id("a") && Peeked(s0) == Token(PLUS, "+") && NextToken(NextToken(s0)) == s2
            && Current(s2) == Id("b") && Peeked(s2) == Token(MINUS, "-") && NextToken(NextToken(s2)) == s4
            && Current(s4) == Id("c") && Peeked(s4).kind == SEMICOLON
  {
    assert IsTokenStream(ts);
    TwoAhead(ts, 0);
    TwoAhead(ts, 2);
  }

  /** `a + b - c` is `((a + b) - c)`: operators of equal precedence associate to the left. */
  lemma LeftAssociative(ts: seq<Token>)
    requires AbcTokens(ts)
    ensures IsTokenStream(ts)
    ensures var p := Program([ExpressionStatement(Id("a"), AbcTree())]);
            ParseProgram(ts) == Parsed(p, PState(ts, 6, [])) && ProgramString(p) == "((a + b) - c)"
  {
    AbcSteps(ts);
    AbcFolds(PState(ts, 0, []), PState(ts, 2, []), PState(ts, 4, []));
    ExpressionProgramAt(ts, AbcTree(), 4);
    AbcRendering();
  }

  // a + b / c

  /** The token stream of `a + b / c;`. */
  predicate SumOfQuotientTokens(ts: seq<Token>)
  {
    |ts| == 7 && ts[0] == Id("a") && ts[1] == Token(PLUS, "+") && ts[2] == Id("b")
    && ts[3] == Token(SLASH, "/") && ts[4] == Id("c") && ts[5] == Token(SEMICOLON, ";")
    && ts[6] == Token(EOF, "")
  }

  function QuotientTree(): (e: Expr)
    ensures Renderable(e) && Agrees(e)
  {
    Infix(Token(SLASH, "/"), Var("b"), "/", Var("c"))
  }
  function SumOfQuotientTree(): (e: Expr)
    ensures Renderable(e) && Agrees(e)
  {
    Infix(Token(PLUS, "+"), Var("a"), "+", QuotientTree())
  }

  /** Inside the right operand of `+`, `b / c` folds, since `/` binds tighter than `+`. */
  lemma QuotientFolds(s2: PState, s4: PState)
    requires Good(s2) && Current(s2) == Id("b") && Peeked(s2) == Token(SLASH, "/") && NextToken(NextToken(s2)) == s4
    requires Current(s4) == Id("c") && Peeked(s4).kind == SEMICOLON
    ensures ParseExpression(s2, SUM) == Parsed(QuotientTree(), s4)
  {
    LeafOperand(s2, SUM, Var("b"));
    FoldLeaf(s2, Var("b"), SUM, s4, QuotientTree());
    LoopStops(s4, QuotientTree(), SUM);
  }

  /** After `a`, the loop folds `+` with the whole quotient as its right operand. */
  lemma SumOfQuotientFolds(s0: PState, s2: PState, s4: PState)
    requires Good(s0) && Current(s0) == Id("a") && Peeked(s0) == Token(PLUS, "+") && NextToken(NextToken(s0)) == s2
    requires Current(s2) == Id("b") && Peeked(s2) == Token(SLASH, "/") && NextToken(NextToken(s2)) == s4
    requires Current(s4) == Id("c") && Peeked(s4).kind == SEMICOLON
    ensures ParseExpression(s0, LOWEST) == Parsed(SumOfQuotientTree(), s4)
  {
    LeafOperand(s0, LOWEST, Var("a"));
    SumFolds(s0, s2, s4);
  }

  /** The loop started at `a` folds `+` with the quotient as its right operand, then stops. */
  lemma SumFolds(s0: PState, s2: PState, s4: PState)
    requires Good(s0) && Peeked(s0) == Token(PLUS, "+") && NextToken(NextToken(s0)) == s2
    requires Current(s2) == Id("b") && Peeked(s2) == Token(SLASH, "/") && NextToken(NextToken(s2)) == s4
    requires Current(s4) == Id("c") && Peeked(s4).kind == SEMICOLON
    ensures ExpressionLoop(s0, Var("a"), LOWEST) == Parsed(SumOfQuotientTree(), s4)
  {
    QuotientFolds(s2, s4);
    FoldLast(s0, Var("a"), LOWEST, QuotientTree(), s4);
  }

  lemma SumOfQuotientText()
    ensures String(SumOfQuotientTree()) == "(a + (b / c))"
  {
    assert String(QuotientTree()) == "(b / c)";
  }

  lemma SumOfQuotientRendering()
    ensures ProgramString(Program([ExpressionStatement(Id("a"), SumOfQuotientTree())])) == "(a + (b / c))"
  {
    SumOfQuotientText();
    ExpressionProgramText(Id("a"), SumOfQuotientTree(), "(a + (b / c))");
  }

  /** The states the parse of `a + b / c;` passes through, as its token stream fixes them. */
  lemma SumOfQuotientSteps(ts: seq<Token>)
    requires SumOfQuotientTokens(ts)
    ensures IsTokenStream(ts)
    ensures var s0, s2, s4 := PState(ts, 0, []), PState(ts, 2, []), PState(ts, 4, []);
            Good(s0) && Current(s0) == Id("a") && Peeked(s0) == Token(PLUS, "+") && NextToken(NextToken(s0)) == s2
            && Current(s2) == Id("b") && Peeked(s2) == Token(SLASH, "/") && NextToken(NextToken(s2)) == s4
            && Current(s4) == Id("c") && Peeked(s4).kind == SEMICOLON
  {
    assert IsTokenStream(ts);
    TwoAhead(ts, 0);
    TwoAhead(ts, 2);
  }

  /** `a + b / c` is `(a + (b / c))`: the tighter operator on the right takes the middle operand. */
  lemma TighterOnTheRight(ts: seq<Token>)
    requires SumOfQuotientTokens(ts)
    ensures IsTokenStream(ts)
    ensures var p := Program([ExpressionStatement(Id("a"), SumOfQuotientTree())]);
            ParseProgram(ts) == Parsed(p, PState(ts, 6, [])) && ProgramString(p) == "(a + (b / c))"
  {
    SumOfQuotientSteps(ts);
    SumOfQuotientFolds(PState(ts, 0, []), PState(ts, 2, []), PState(ts, 4, []));
    ExpressionProgramAt(ts, SumOfQuotientTree(), 4);
    SumOfQuotientRendering();
  }

  // -a * b

  /** The token stream of `-a * b;`. */
  predicate NegatedFactorTokens(ts: seq<Token>)
  {
    |ts| == 6 && ts[0] == Token(MINUS, "-") && ts[1] == Id("a") && ts[2] == Token(ASTERISK, "*")
    && ts[3] == Id("b") && ts[4] == Token(SEMICOLON, ";") && ts[5] == Token(EOF, "")
  }

  function NegatedTree(): (e: Expr)
    ensures Renderable(e) && Agrees(e)
  {
    Prefix(Token(MINUS, "-"), "-", Var("a"))
  }
  function NegatedFactorTree(): (e: Expr)
    ensures Renderable(e) && Agrees(e)
  {
    Infix(Token(ASTERISK, "*"), NegatedTree(), "*", Var("b"))
  }

  /** `-` takes `a` alone, since `*` binds no tighter than a prefix; the loop then folds `*`. */
  lemma NegatedFactorFolds(s0: PState, s1: PState, s3: PState)
    requires Good(s0) && Current(s0) == Token(MINUS, "-") && NextToken(s0) == s1
    requires Current(s1) == Id("a") && Peeked(s1) == Token(ASTERISK, "*") && NextToken(NextToken(s1)) == s3
    requires Current(s3) == Id("b") && Peeked(s3).kind == SEMICOLON
    ensures ParseExpression(s0, LOWEST) == Parsed(NegatedFactorTree(), s3)
  {
    LeafAlone(s1, PREFIX, Var("a"));
    PrefixWith(s0, LOWEST, Var("a"), s1, NegatedTree());
    FactorFolds(s1, s3);
  }

  /** The loop started at `-a` folds `*` with `b` as its right operand, then stops. */
  lemma FactorFolds(s1: PState, s3: PState)
    requires Good(s1) && Peeked(s1) == Token(ASTERISK, "*") && NextToken(NextToken(s1)) == s3
    requires Current(s3) == Id("b") && Peeked(s3).kind == SEMICOLON
    ensures ExpressionLoop(s1, NegatedTree(), LOWEST) == Parsed(NegatedFactorTree(), s3)
  {
    LeafAlone(s3, PRODUCT, Var("b"));
    FoldLast(s1, NegatedTree(), LOWEST, Var("b"), s3);
  }

  lemma NegatedFactorText()
    ensures String(NegatedFactorTree()) == "((-a) * b)"
  {
    assert String(NegatedTree()) == "(-a)";
  }

  lemma NegatedFactorRendering()
    ensures ProgramString(Program([ExpressionStatement(Token(MINUS, "-"), NegatedFactorTree())])) == "((-a) * b)"
  {
    NegatedFactorText();
    ExpressionProgramText(Token(MINUS, "-"), NegatedFactorTree(), "((-a) * b)");
  }

  /** The states the parse of `-a * b;` passes through, as its token stream fixes them. */
  lemma NegatedFactorSteps(ts: seq<Token>)
    requires NegatedFactorTokens(ts)
    ensures IsTokenStream(ts)
    ensures var s0, s1, s3 := PState(ts, 0, []), PState(ts, 1, []), PState(ts, 3, []);
            Good(s0) && Current(s0) == Token(MINUS, "-") && NextToken(s0) == s1
            && Current(s1) == Id("a") && Peeked(s1) == Token(ASTERISK, "*") && NextToken(NextToken(s1)) == s3
            && Current(s3) == Id("b") && Peeked(s3).kind == SEMICOLON
  {
    assert IsTokenStream(ts);
    TwoAhead(ts, 1);
  }

  /** `-a * b` is `((-a) * b)`: a prefix operator binds tighter than `*`. */
  lemma PrefixBindsTighter(ts: seq<Token>)
    requires NegatedFactorTokens(ts)
    ensures IsTokenStream(ts)
    ensures var p := Program([ExpressionStatement(Token(MINUS, "-"), NegatedFactorTree())]);
            ParseProgram(ts) == Parsed(p, PState(ts, 5, [])) && ProgramString(p) == "((-a) * b)"
  {
    NegatedFactorSteps(ts);
    NegatedFactorFolds(PState(ts, 0, []), PState(ts, 1, []), PState(ts, 3, []));
    ExpressionProgramAt(ts, NegatedFactorTree(), 3);
    NegatedFactorRendering();
  }

  // !-a

  /** The token stream of `!-a;`. */
  predicate NotNegatedTokens(ts: seq<Token>)
  {
    |ts| == 5 && ts[0] == Token(BANG, "!") && ts[1] == Token(MINUS, "-") && ts[2] == Id("a")
    && ts[3] == Token(SEMICOLON, ";") && ts[4] == Token(EOF, "")
  }

  function NotNegatedTree(): (e: Expr)
    ensures Renderable(e) && Agrees(e)
  {
    Prefix(Token(BANG, "!"), "!", NegatedTree())
  }

  /** `!` takes `-a` as its operand, and `-` takes `a`; the `;` stops both loops. */
  lemma NotNegatedFolds(s0: PState, s1: PState, s2: PState)
    requires Good(s0) && Current(s0) == Token(BANG, "!") && NextToken(s0) == s1
    requires Current(s1) == Token(MINUS, "-") && NextToken(s1) == s2
    requires Current(s2) == Id("a") && Peeked(s2).kind == SEMICOLON
    ensures ParseExpression(s0, LOWEST) == Parsed(NotNegatedTree(), s2)
  {
    LeafAlone(s2, PREFIX, Var("a"));
    PrefixWith(s1, PREFIX, Var("a"), s2, NegatedTree());
    LoopStops(s2, NegatedTree(), PREFIX);
    PrefixWith(s0, LOWEST, NegatedTree(), s2, NotNegatedTree());
    LoopStops(s2, NotNegatedTree(), LOWEST);
  }

  lemma NotNegatedText()
    ensures String(NotNegatedTree()) == "(!(-a))"
  {
    assert String(NegatedTree()) == "(-a)";
  }

  lemma NotNegatedRendering()
    ensures ProgramString(Program([ExpressionStatement(Token(BANG, "!"), NotNegatedTree())])) == "(!(-a))"
  {
    NotNegatedText();
    ExpressionProgramText(Token(BANG, "!"), NotNegatedTree(), "(!(-a))");
  }

  /** The states the parse of `!-a;` passes through, as its token stream fixes them. */
  lemma NotNegatedSteps(ts: seq<Token>)
    requires NotNegatedTokens(ts)
    ensures IsTokenStream(ts)
    ensures var s0, s1, s2 := PState(ts, 0, []), PState(ts, 1, []), PState(ts, 2, []);
            Good(s0) && Current(s0) == Token(BANG, "!") && NextToken(s0) == s1
            && Current(s1) == Token(MINUS, "-") && NextToken(s1) == s2
            && Current(s2) == Id("a") && Peeked(s2).kind == SEMICOLON
  {
    assert IsTokenStream(ts);
  }

  /** `!-a` is `(!(-a))`: prefix operators nest to the right. */
  lemma PrefixOperatorsNest(ts: seq<Token>)
    requires NotNegatedTokens(ts)
    ensures IsTokenStream(ts)
    ensures var p := Program([ExpressionStatement(Token(BANG, "!"), NotNegatedTree())]);
            ParseProgram(ts) == Parsed(p, PState(ts, 4, [])) && ProgramString(p) == "(!(-a))"
  {
    NotNegatedSteps(ts);
    NotNegatedFolds(PState(ts, 0, []), PState(ts, 1, []), PState(ts, 2, []));
    ExpressionProgramAt(ts, NotNegatedTree(), 2);
    NotNegatedRendering();
  }

  // !(true == true)

  /** The token stream of `!(true == true)`. */
  predicate NotGroupedTokens(ts: seq<Token>)
  {
    |ts| == 7 && ts[0] == Token(BANG, "!") && ts[1] == Token(LPAREN, "(") && ts[2] == Token(TRUE, "true")
    && ts[3] == Token(EQ, "==") && ts[4] == Token(TRUE, "true") && ts[5] == Token(RPAREN, ")")
    && ts[6] == Token(EOF, "")
  }

  function True(): (e: Expr)
    ensures Renderable(e) && Agrees(e)
  {
    Leaf(Token(TRUE, "true"))
  }
  function TrueEqualsTrue(): (e: Expr)
    ensures Renderable(e) && Agrees(e)
  {
    Infix(Token(EQ, "=="), True(), "==", True())
  }
  function NotGroupedTree(): (e: Expr)
    ensures Renderable(e) && Agrees(e)
  {
    Prefix(Token(BANG, "!"), "!", TrueEqualsTrue())
  }

  /** Inside the parentheses, `true == true` folds. */
  lemma InnerEqualityFolds(s2: PState, s4: PState)
    requires Good(s2) && Current(s2) == Token(TRUE, "true") && Peeked(s2) == Token(EQ, "==") && NextToken(NextToken(s2)) == s4
    requires Current(s4) == Token(TRUE, "true") && Peeked(s4).kind == RPAREN
    ensures ExpressionLoop(s2, True(), LOWEST) == Parsed(TrueEqualsTrue(), s4)
  {
    LeafAlone(s4, EQUALS, True());
    FoldLast(s2, True(), LOWEST, True(), s4);
  }

  /** `!` takes the parenthesised equality as its operand; the closing `)` ends both loops. */
  lemma NotGroupedFolds(s0: PState, s1: PState, s2: PState, s4: PState)
    requires Good(s0) && Current(s0) == Token(BANG, "!") && NextToken(s0) == s1
    requires Current(s1).kind == LPAREN && NextToken(s1) == s2
    requires Current(s2) == Token(TRUE, "true") && Peeked(s2) == Token(EQ, "==") && NextToken(NextToken(s2)) == s4
    requires Current(s4) == Token(TRUE, "true") && Peeked(s4).kind == RPAREN && Peeked(NextToken(s4)).kind == EOF
    ensures ParseExpression(s0, LOWEST) == Parsed(NotGroupedTree(), NextToken(s4))
  {
    InnerEqualityFolds(s2, s4);
    LeafOperand(s2, LOWEST, True());
    GroupedOperand(s1, PREFIX);
    LoopStops(NextToken(s4), TrueEqualsTrue(), PREFIX);
    PrefixWith(s0, LOWEST, TrueEqualsTrue(), NextToken(s4), NotGroupedTree());
    LoopStops(NextToken(s4), NotGroupedTree(), LOWEST);
  }

  lemma TrueEqualsTrueText()
    ensures String(TrueEqualsTrue()) == "(true == true)"
  {
    assert String(True()) == "true";
  }

  lemma NotGroupedText()
    ensures String(NotGroupedTree()) == "(!(true == true))"
  {
    TrueEqualsTrueText();
  }

  lemma NotGroupedRendering()
    ensures ProgramString(Program([ExpressionStatement(Token(BANG, "!"), NotGroupedTree())])) == "(!(true == true))"
  {
    NotGroupedText();
    ExpressionProgramText(Token(BANG, "!"), NotGroupedTree(), "(!(true == true))");
  }

  /** The states the parse of `!(true == true)` passes through, as its token stream fixes them. */
  lemma NotGroupedSteps(ts: seq<Token>)
    requires NotGroupedTokens(ts)
    ensures IsTokenStream(ts)
    ensures var s0, s1, s2, s4 := PState(ts, 0, []), PState(ts, 1, []), PState(ts, 2, []), PState(ts, 4, []);
            Good(s0) && Current(s0) == Token(BANG, "!") && NextToken(s0) == s1
            && Current(s1).kind == LPAREN && NextToken(s1) == s2
            && Current(s2) == Token(TRUE, "true") && Peeked(s2) == Token(EQ, "==") && NextToken(NextToken(s2)) == s4
            && Current(s4) == Token(TRUE, "true") && Peeked(s4).kind == RPAREN
            && NextToken(s4) == PState(ts, 5, []) && Peeked(NextToken(s4)).kind == EOF
  {
    assert IsTokenStream(ts);
    TwoAhead(ts, 2);
  }

  /**
   * `!(true == true)` is `(!(true == true))`: the parentheses make `==` the
   * operand of `!`, which would otherwise take `true` alone, and leave no
   * node of their own.
   */
  lemma ParenthesesGroup(ts: seq<Token>)
    requires NotGroupedTokens(ts)
    ensures IsTokenStream(ts)
    ensures var p := Program([ExpressionStatement(Token(BANG, "!"), NotGroupedTree())]);
            ParseProgram(ts) == Parsed(p, PState(ts, 6, [])) && ProgramString(p) == "(!(true == true))"
  {
    NotGroupedSteps(ts);
    NotGroupedFolds(PState(ts, 0, []), PState(ts, 1, []), PState(ts, 2, []), PState(ts, 4, []));
    ExpressionProgramAt(ts, NotGroupedTree(), 5);
    NotGroupedRendering();
  }

  // An optional else, and a let without a name

  /**
   * `if` without `else` leaves the alternative nil and stays on the
   * consequence's last token; after `else {`, both blocks are kept and the
   * alternative is the block opened by that `{`.
   */
  lemma ElseIsOptional(s: PState, token: Token, condition: Expr, consequence: Block)
    requires Good(s) && token.kind == IF && Agrees(condition) && BlockAgrees(consequence)
    ensures Peeked(s).kind != ELSE
            ==> ElseBlock(s, token, condition, consequence) == Parsed(If(token, condition, consequence, None), s)
    ensures Peeked(s).kind == ELSE && Peeked(NextToken(s)).kind == LBRACE
            ==> var e := ElseBlock(s, token, condition, consequence).node;
                e.If? && e.consequence == consequence && e.alternative.Some?
                && e.alternative.value.token == Peeked(NextToken(s))
  {
  }

  /**
   * A `let` not followed by a name reports the peeked token, keeps the nil
   * let statement in the program and goes on from the token after `let`,
   * so the rest of the line is parsed as statements of its own.
   */
  lemma MissingLetName(s: PState, acc: seq<Stmt>)
    requires Good(s) && StmtsAgree(acc) && Current(s).kind == LET && Peeked(s).kind != IDENT
    ensures ProgramStatements(s, acc)
         == ProgramStatements(NextToken(AddError(s, PeekError(IDENT, Peeked(s).kind))), acc + [NilLet])
  {
    assert ParseStatement(s) == ParseLetStatement(s);
  }

  /** The messages `let = 5;` produces: the missing name, then no prefix function for `=`. */
  lemma MissingNameMessages()
    ensures PeekError(IDENT, ASSIGN) == "Expected next token to be IDENT, but was = instead"
    ensures NoPrefixParseFnError(ASSIGN) == "no prefix parse function for = found"
  {
    assert Name(IDENT) == "IDENT" && Name(ASSIGN) == "=";
  }

  /**
   * An identifier as the parser builds it renders its token's spelling: its
   * String and its TokenLiteral are the same text.
   */
  lemma IdentifierText(id: Identifier)
    requires Agrees(Ident(id))
    ensures String(Ident(id)) == TokenLiteral(Ident(id)) == id.token.literal
  {
  }
}
