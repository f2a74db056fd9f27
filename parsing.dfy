/**
 * The Pratt parser as functions over its state. The state is the lexer's
 * token sequence, the index of the current token and the error list; the
 * peeked token is the one after the current token, and once the lexer has
 * reached EOF it keeps handing out EOF, so both indexes stop at the last
 * token.
 *
 * Each `parseX` method of the parser is a function here from the state
 * before to the node built and the state after; each `for` loop is a
 * recursive function of its own. Every one of them promises the same three
 * things: the state only moves forward (the same tokens, the current index
 * never goes back, errors are only appended), a call that reports no error
 * builds a tree without nil in it, and every node agrees with the token it
 * was built from.
 *
 * Termination: a call either consumes a token first or goes to a function
 * of lower rank (the second component of each `decreases`).
 */
module Parsing {
  import opened Wrappers
  import opened GoInt
  import opened Tokens
  import opened Ast
  import Text
  import Strconv

  // ---------------------------------------------------------------------------
  // Precedences and the handler tables

  const LOWEST: int := 1
  const EQUALS: int := 2
  const LESSGREATER: int := 3
  const SUM: int := 4
  const PRODUCT: int := 5
  const PREFIX: int := 6
  const CALL: int := 7
  const INDEX: int := 8

  const PRECEDENCES: map<TokenType, int> :=
    map[EQ := EQUALS, NOT_EQ := EQUALS, LT := LESSGREATER, GT := LESSGREATER,
        PLUS := SUM, MINUS := SUM, SLASH := PRODUCT, ASTERISK := PRODUCT,
        LPAREN := CALL, LBRACKET := INDEX]

  /** `currentPrecedence` / `peekPrecedence` of a token type: its PRECEDENCES entry, else LOWEST. */
  function Precedence(t: TokenType): int
  {
    match t
    case EQ | NOT_EQ => EQUALS
    case LT | GT => LESSGREATER
    case PLUS | MINUS => SUM
    case SLASH | ASTERISK => PRODUCT
    case LPAREN => CALL
    case LBRACKET => INDEX
    case _ => LOWEST
  }

  /** The token types `New` registers a prefix parse function for. */
  predicate HasPrefixFn(t: TokenType)
  {
    || t == IDENT || t == INT || t == BANG || t == MINUS || t == TRUE || t == FALSE
    || t == LPAREN || t == IF || t == FUNCTION || t == STRING || t == LBRACKET || t == LBRACE
  }

  /** The binary operators, all parsed by `parseInfixExpression`. */
  predicate IsOperator(t: TokenType)
  {
    t == PLUS || t == MINUS || t == SLASH || t == ASTERISK || t == EQ || t == NOT_EQ || t == LT || t == GT
  }

  /** The token types `New` registers an infix parse function for. */
  predicate HasInfixFn(t: TokenType)
  {
    IsOperator(t) || t == LPAREN || t == LBRACKET
  }

  /**
   * A token binds tighter than LOWEST exactly when it has an infix handler,
   * so the loop of `parseExpression` never reaches its `infix == nil` return.
   */
  lemma InfixHandlerForEveryBindingToken(t: TokenType)
    ensures Precedence(t) > LOWEST <==> HasInfixFn(t)
  {
  }

  // ---------------------------------------------------------------------------
  // Parser state

  datatype PState = PState(ts: seq<Token>, cur: nat, errors: seq<string>)

  /** What a call produced and the state it left behind. */
  datatype Parsed<T> = Parsed(node: T, state: PState)

  predicate Good(s: PState)
  {
    IsTokenStream(s.ts) && s.cur < |s.ts|
  }

  /** The state `New` leaves after priming the first two tokens. */
  function Start(ts: seq<Token>): (s: PState)
    requires IsTokenStream(ts)
    ensures Good(s) && s.cur == 0 && s.errors == []
  {
    PState(ts, 0, [])
  }

  /** The current token; it is EOF exactly at the last index. */
  function Current(s: PState): (t: Token)
    requires Good(s)
    ensures t.kind == EOF <==> s.cur == |s.ts| - 1
  {
    s.ts[s.cur]
  }

  /** The peeked token; it is EOF exactly when the current token is at most one before the end. */
  function Peeked(s: PState): (t: Token)
    requires Good(s)
    ensures t.kind == EOF <==> s.cur + 2 >= |s.ts|
  {
    s.ts[if s.cur + 1 < |s.ts| then s.cur + 1 else s.cur]
  }

  /** `nextToken`: the peeked token becomes current. */
  function NextToken(s: PState): (r: PState)
    requires Good(s)
    ensures Good(r) && r.ts == s.ts && r.errors == s.errors
    ensures Current(r) == Peeked(s)
    ensures Current(s).kind != EOF ==> r.cur == s.cur + 1
    ensures Current(s).kind == EOF ==> r == s
  {
    s.(cur := if s.cur + 1 < |s.ts| then s.cur + 1 else s.cur)
  }

  function AddError(s: PState, msg: string): PState
  {
    s.(errors := s.errors + [msg])
  }

  function NoPrefixParseFnError(t: TokenType): string
  {
    "no prefix parse function for " + Name(t) + " found"
  }

  function PeekError(want: TokenType, got: TokenType): string
  {
    "Expected next token to be " + Name(want) + ", but was " + Name(got) + " instead"
  }

  function IntegerError(literal: string): string
  {
    "coundn't parse " + Text.Quote(literal) + " as an integer"
  }

  /** The last error reported is `expectPeek`'s complaint that the peeked token was not `want`. */
  predicate Expected(s: PState, want: TokenType)
  {
    |s.errors| > 0 && exists got :: s.errors[|s.errors| - 1] == PeekError(want, got)
  }

  /** `expectPeek`: advance onto the peeked token if it has type t, else report it. */
  function ExpectPeek(s: PState, t: TokenType): (r: Parsed<bool>)
    requires Good(s)
    ensures Step(s, r.state)
    ensures r.node <==> Peeked(s).kind == t
    ensures r.node ==> r.state.errors == s.errors && Current(r.state).kind == t
    ensures r.node && t != EOF ==> r.state.cur == s.cur + 1
    ensures !r.node ==> r.state.cur == s.cur && r.state.errors == s.errors + [PeekError(t, Peeked(s).kind)]
    ensures !r.node ==> Expected(r.state, t)
  {
    if Peeked(s).kind == t then Parsed(true, NextToken(s))
    else Parsed(false, AddError(s, PeekError(t, Peeked(s).kind)))
  }

  /** `if p.peekedTokenIs(token.SEMICOLON) { p.nextToken() }`, at the end of every statement. */
  function SkipSemicolon(s: PState): (r: PState)
    requires Good(s)
    ensures Step(s, r) && r.errors == s.errors
    ensures Peeked(s).kind == SEMICOLON ==> Current(r).kind == SEMICOLON && r.cur == s.cur + 1
    ensures Peeked(s).kind != SEMICOLON ==> r == s
  {
    if Peeked(s).kind == SEMICOLON then NextToken(s) else s
  }

  // ---------------------------------------------------------------------------
  // What every parse function promises

  /** The state only moves forward: same tokens, no step back, errors only appended. */
  predicate Step(s: PState, t: PState)
  {
    Good(t) && t.ts == s.ts && s.cur <= t.cur && s.errors <= t.errors
  }

  /** No error was reported between s and t. */
  predicate Clean(s: PState, t: PState)
  {
    |t.errors| == |s.errors|
  }

  /** Two steps make one, and it is clean exactly when both are. */
  lemma StepsCompose(a: PState, b: PState, c: PState)
    requires Step(a, b) && Step(b, c)
    ensures Step(a, c)
    ensures Clean(a, c) <==> Clean(a, b) && Clean(b, c)
  {
  }

  predicate IdentifierAgrees(id: Identifier)
  {
    id.value == id.token.literal
  }

  /**
   * Every node agrees with the token it was built from: identifiers, strings
   * and operators carry their token's literal, integers its parsed value,
   * and each node kind has the token type that starts it. The parser never
   * builds a `while` node.
   */
  predicate Agrees(e: Expr)
  {
    match e
    case Nil => true
    case Ident(id) => id.token.kind == IDENT && IdentifierAgrees(id)
    case IntegerLiteral(t, v) => t.kind == INT && Strconv.ParseInt(t.literal) == Some(v)
    case StringLiteral(t, text) => t.kind == STRING && text == t.literal
    case BooleanLiteral(t, b) => (t.kind == TRUE && b) || (t.kind == FALSE && !b)
    case Prefix(t, op, r) => (t.kind == BANG || t.kind == MINUS) && op == t.literal && Agrees(r)
    case Infix(t, l, op, r) => IsOperator(t.kind) && op == t.literal && Agrees(l) && Agrees(r)
    case If(t, c, cons, alt) =>
      t.kind == IF && Agrees(c) && BlockAgrees(cons) && (alt.Some? ==> BlockAgrees(alt.value))
    case FunctionLiteral(t, ps, body) => t.kind == FUNCTION && IdentifiersAgree(ps) && BlockAgrees(body)
    case Call(t, f, args) => t.kind == LPAREN && Agrees(f) && AllAgree(args)
    case ArrayLiteral(t, els) => t.kind == LBRACKET && AllAgree(els)
    case Index(t, l, ix) => t.kind == LBRACKET && Agrees(l) && Agrees(ix)
    case HashLiteral(t, ps) => t.kind == LBRACE && PairsAgree(ps)
    case While(_, _, _) => false
  }

  predicate AllAgree(es: seq<Expr>)
  {
    forall i :: 0 <= i < |es| ==> Agrees(es[i])
  }

  predicate PairsAgree(ps: seq<Pair>)
  {
    forall i :: 0 <= i < |ps| ==> PairAgrees(ps[i])
  }

  predicate PairAgrees(p: Pair)
  {
    Agrees(p.key) && Agrees(p.value)
  }

  predicate StmtAgrees(s: Stmt)
  {
    match s
    case Let(t, name, v) => t.kind == LET && name.token.kind == IDENT && IdentifierAgrees(name) && Agrees(v)
    case NilLet => true
    case Return(t, v) => t.kind == RETURN && Agrees(v)
    case ExpressionStatement(_, x) => Agrees(x)
  }

  predicate StmtsAgree(ss: seq<Stmt>)
  {
    forall i :: 0 <= i < |ss| ==> StmtAgrees(ss[i])
  }

  predicate BlockAgrees(b: Block)
  {
    b.token.kind == LBRACE && StmtsAgree(b.statements)
  }

  predicate IdentifiersAgree(ids: seq<Identifier>)
  {
    forall i :: 0 <= i < |ids| ==> IdentifierAgrees(ids[i])
  }

  predicate AllComplete(es: seq<Expr>)
  {
    forall i :: 0 <= i < |es| ==> Complete(es[i])
  }

  predicate PairsComplete(ps: seq<Pair>)
  {
    forall i :: 0 <= i < |ps| ==> Complete(ps[i].key) && Complete(ps[i].value)
  }

  predicate StmtsComplete(ss: seq<Stmt>)
  {
    forall i :: 0 <= i < |ss| ==> StmtComplete(ss[i])
  }

  lemma AllAgreeAppend(es: seq<Expr>, e: Expr)
    requires AllAgree(es) && Agrees(e)
    ensures AllAgree(es + [e])
  {
  }

  lemma StmtsAgreeAppend(ss: seq<Stmt>, st: Stmt)
    requires StmtsAgree(ss) && StmtAgrees(st)
    ensures StmtsAgree(ss + [st])
  {
  }

  /** The promise of a function that builds an expression. */
  predicate ParsesExpr(s: PState, r: Parsed<Expr>)
  {
    Step(s, r.state) && Agrees(r.node) && (Clean(s, r.state) ==> Complete(r.node))
  }

  /** The promise of an infix handler, given the left operand it extends. */
  predicate Extends(s: PState, left: Expr, r: Parsed<Expr>)
  {
    Step(s, r.state) && Agrees(r.node) && (Clean(s, r.state) && Complete(left) ==> Complete(r.node))
  }

  predicate ParsesStmt(s: PState, r: Parsed<Stmt>)
  {
    Step(s, r.state) && StmtAgrees(r.node) && (Clean(s, r.state) ==> StmtComplete(r.node))
  }

  // ---------------------------------------------------------------------------
  // Hash literal pairs

  /** Some pair has the nil key: a key whose parse failed. */
  predicate NilKeyed(ps: seq<Pair>)
  {
    exists i :: 0 <= i < |ps| && ps[i].key == Nil
  }

  /**
   * `hash.Pairs[key] = value`. The map is keyed by node identity, and every
   * parsed key is a fresh node, so a key is new unless it is nil: a second
   * nil key overwrites the value stored under the first.
   */
  function Put(ps: seq<Pair>, key: Expr, value: Expr): (r: seq<Pair>)
    ensures key != Nil ==> r == ps + [Pair(key, value)]
    ensures key == Nil ==> Pair(Nil, value) in r && |r| == if NilKeyed(ps) then |ps| else |ps| + 1
    ensures forall p :: p in r ==> p == Pair(key, value) || p in ps
    ensures forall p :: p in ps && p.key != Nil ==> p in r
  {
    if key != Nil then ps + [Pair(key, value)] else PutNil(ps, value)
  }

  function PutNil(ps: seq<Pair>, value: Expr): (r: seq<Pair>)
    ensures Pair(Nil, value) in r
    ensures |r| == if NilKeyed(ps) then |ps| else |ps| + 1
    ensures forall p :: p in r ==> p == Pair(Nil, value) || p in ps
    ensures forall p :: p in ps && p.key != Nil ==> p in r
  {
    if ps == [] then [Pair(Nil, value)]
    else if ps[0].key == Nil then [Pair(Nil, value)] + ps[1..]
    else
      var r := [ps[0]] + PutNil(ps[1..], value);
      assert NilKeyed(ps) <==> NilKeyed(ps[1..]) by {
        if NilKeyed(ps) {
          var i :| 0 <= i < |ps| && ps[i].key == Nil;
          assert ps[1..][i - 1].key == Nil;
        }
        if NilKeyed(ps[1..]) {
          var i :| 0 <= i < |ps[1..]| && ps[1..][i].key == Nil;
          assert ps[i + 1].key == Nil;
        }
      }
      r
  }

  lemma PutAgrees(ps: seq<Pair>, key: Expr, value: Expr)
    requires PairsAgree(ps) && Agrees(key) && Agrees(value)
    ensures PairsAgree(Put(ps, key, value))
  {
    var r := Put(ps, key, value);
    forall i | 0 <= i < |r| ensures PairAgrees(r[i]) {
      assert r[i] in r;
    }
  }

  lemma PutComplete(ps: seq<Pair>, key: Expr, value: Expr)
    requires PairsComplete(ps) && Complete(key) && Complete(value)
    ensures PairsComplete(Put(ps, key, value))
  {
    assert Put(ps, key, value) == ps + [Pair(key, value)];
  }

  // ---------------------------------------------------------------------------
  // Expressions

  /** `parseExpression`: a prefix handler for the current token, then the infix loop. */
  function ParseExpression(s: PState, precedence: int): (r: Parsed<Expr>)
    requires Good(s)
    ensures ParsesExpr(s, r)
    ensures !HasPrefixFn(Current(s).kind)
            ==> r == Parsed(Nil, AddError(s, NoPrefixParseFnError(Current(s).kind)))
    ensures HasPrefixFn(Current(s).kind) && LOWEST <= precedence
            ==> Peeked(r.state).kind == SEMICOLON || Precedence(Peeked(r.state).kind) <= precedence
    decreases |s.ts| - s.cur, 4
  {
    if !HasPrefixFn(Current(s).kind) then
      Parsed(Nil, AddError(s, NoPrefixParseFnError(Current(s).kind)))
    else
      var left := ParsePrefix(s);
      var r := ExpressionLoop(left.state, left.node, precedence);
      StepsCompose(s, left.state, r.state);
      r
  }

  /**
   * The `for` loop of `parseExpression`: while the peeked token is not `;`
   * and binds tighter than `precedence`, step onto it and let its infix
   * handler extend the left expression. It stops only where the peeked
   * token is `;` or binds no tighter.
   */
  function ExpressionLoop(s: PState, left: Expr, precedence: int): (r: Parsed<Expr>)
    requires Good(s) && Agrees(left)
    ensures Extends(s, left, r)
    ensures precedence < LOWEST || Peeked(r.state).kind == SEMICOLON
            || Precedence(Peeked(r.state).kind) <= precedence
    decreases |s.ts| - s.cur, 3
  {
    if !(Peeked(s).kind != SEMICOLON && precedence < Precedence(Peeked(s).kind)) then Parsed(left, s)
    else if !HasInfixFn(Peeked(s).kind) then
      InfixHandlerForEveryBindingToken(Peeked(s).kind);
      Parsed(left, s)
    else
      var s1 := NextToken(s);
      var e := ParseInfix(s1, left);
      var r := ExpressionLoop(e.state, e.node, precedence);
      StepsCompose(s, s1, e.state);
      StepsCompose(s, e.state, r.state);
      r
  }

  /** With a prefix handler for the current token, the loop starts from what that handler parsed. */
  lemma PrefixThenLoop(s: PState, precedence: int, left: Parsed<Expr>)
    requires Good(s) && HasPrefixFn(Current(s).kind) && left == ParsePrefix(s)
    ensures ParseExpression(s, precedence) == ExpressionLoop(left.state, left.node, precedence)
  {
  }

  /** One turn of the loop: the peeked operator is stepped onto and its handler extends `left`. */
  lemma ExpressionLoopStep(s: PState, left: Expr, precedence: int)
    requires Good(s) && Agrees(left)
    requires Peeked(s).kind != SEMICOLON && precedence < Precedence(Peeked(s).kind) && HasInfixFn(Peeked(s).kind)
    ensures NextToken(s).cur == s.cur + 1
    ensures var e := ParseInfix(NextToken(s), left);
            ExpressionLoop(s, left, precedence) == ExpressionLoop(e.state, e.node, precedence)
  {
  }

  /** The prefix parse function registered for the current token type. */
  function ParsePrefix(s: PState): (r: Parsed<Expr>)
    requires Good(s) && HasPrefixFn(Current(s).kind)
    ensures ParsesExpr(s, r)
    decreases |s.ts| - s.cur, 3
  {
    var k := Current(s).kind;
    if k == IDENT then ParseIdentifier(s)
    else if k == INT then ParseIntegerLiteral(s)
    else if k == BANG || k == MINUS then ParsePrefixExpression(s)
    else if k == TRUE || k == FALSE then ParseBoolean(s)
    else if k == LPAREN then ParseGroupedExpression(s)
    else if k == IF then ParseIfExpression(s)
    else if k == FUNCTION then ParseFunctionLiteral(s)
    else if k == STRING then ParseStringLiteral(s)
    else if k == LBRACKET then ParseArrayLiteral(s)
    else ParseHashLiteral(s)
  }

  /** The infix parse function registered for the current token type. */
  function ParseInfix(s: PState, left: Expr): (r: Parsed<Expr>)
    requires Good(s) && HasInfixFn(Current(s).kind) && Agrees(left)
    ensures Extends(s, left, r)
    decreases |s.ts| - s.cur, 3
  {
    if Current(s).kind == LPAREN then ParseCallExpression(s, left)
    else if Current(s).kind == LBRACKET then ParseIndexExpression(s, left)
    else ParseInfixExpression(s, left)
  }

  function ParseIdentifier(s: PState): (r: Parsed<Expr>)
    requires Good(s) && Current(s).kind == IDENT
    ensures ParsesExpr(s, r) && r.state == s
    decreases |s.ts| - s.cur, 2
  {
    Parsed(Ident(Identifier(Current(s), Current(s).literal)), s)
  }

  /** `parseIntegerLiteral`: the literal read by `strconv.ParseInt(_, 0, 64)`, or an error and nil. */
  function ParseIntegerLiteral(s: PState): (r: Parsed<Expr>)
    requires Good(s) && Current(s).kind == INT
    ensures ParsesExpr(s, r) && r.state.cur == s.cur
    ensures Strconv.ParseInt(Current(s).literal).None?
            <==> r == Parsed(Nil, AddError(s, IntegerError(Current(s).literal)))
    decreases |s.ts| - s.cur, 2
  {
    match Strconv.ParseInt(Current(s).literal)
    case None => Parsed(Nil, AddError(s, IntegerError(Current(s).literal)))
    case Some(v) => Parsed(IntegerLiteral(Current(s), v), s)
  }

  function ParseBoolean(s: PState): (r: Parsed<Expr>)
    requires Good(s) && (Current(s).kind == TRUE || Current(s).kind == FALSE)
    ensures ParsesExpr(s, r) && r.state == s
    decreases |s.ts| - s.cur, 2
  {
    Parsed(BooleanLiteral(Current(s), Current(s).kind == TRUE), s)
  }

  function ParseStringLiteral(s: PState): (r: Parsed<Expr>)
    requires Good(s) && Current(s).kind == STRING
    ensures ParsesExpr(s, r) && r.state == s
    decreases |s.ts| - s.cur, 2
  {
    Parsed(StringLiteral(Current(s), Current(s).literal), s)
  }

  /** `parsePrefixExpression`: the operand is parsed at PREFIX precedence. */
  function ParsePrefixExpression(s: PState): (r: Parsed<Expr>)
    requires Good(s) && (Current(s).kind == BANG || Current(s).kind == MINUS)
    ensures ParsesExpr(s, r)
    decreases |s.ts| - s.cur, 2
  {
    var token := Current(s);
    var right := ParseExpression(NextToken(s), PREFIX);
    Parsed(Prefix(token, token.literal, right.node), right.state)
  }

  /** `parseGroupedExpression`: the inner expression itself, no node of its own. */
  function ParseGroupedExpression(s: PState): (r: Parsed<Expr>)
    requires Good(s) && Current(s).kind == LPAREN
    ensures ParsesExpr(s, r)
    decreases |s.ts| - s.cur, 2
  {
    var inner := ParseExpression(NextToken(s), LOWEST);
    var closed := ExpectPeek(inner.state, RPAREN);
    StepsCompose(s, NextToken(s), inner.state);
    StepsCompose(s, inner.state, closed.state);
    if !closed.node then Parsed(Nil, closed.state) else Parsed(inner.node, closed.state)
  }

  /** `parseIfExpression`: `if (condition) { ... }`, optionally `else { ... }`. */
  function ParseIfExpression(s: PState): (r: Parsed<Expr>)
    requires Good(s) && Current(s).kind == IF
    ensures ParsesExpr(s, r)
    ensures Peeked(s).kind != LPAREN ==> r == Parsed(Nil, AddError(s, PeekError(LPAREN, Peeked(s).kind)))
    ensures r.node != Nil ==> r.node.If? && r.node.token == Current(s)
    decreases |s.ts| - s.cur, 2
  {
    var open := ExpectPeek(s, LPAREN);
    if !open.node then Parsed(Nil, open.state)
    else IfCondition(open.state, Current(s))
  }

  /** The condition of `parseIfExpression`, entered on its `(`, and the `)` after it. */
  function IfCondition(s: PState, token: Token): (r: Parsed<Expr>)
    requires Good(s) && Current(s).kind == LPAREN && token.kind == IF
    ensures ParsesExpr(s, r)
    ensures var condition := ParseExpression(NextToken(s), LOWEST);
            (Peeked(condition.state).kind != RPAREN
             ==> r == Parsed(Nil, AddError(condition.state, PeekError(RPAREN, Peeked(condition.state).kind))))
            && (r.node != Nil ==> r.node.If? && r.node.token == token && r.node.condition == condition.node)
    ensures r.node == Nil ==> Expected(r.state, RPAREN) || Expected(r.state, LBRACE)
    decreases |s.ts| - s.cur, 2
  {
    var condition := ParseExpression(NextToken(s), LOWEST);
    var close := ExpectPeek(condition.state, RPAREN);
    StepsCompose(s, NextToken(s), condition.state);
    StepsCompose(s, condition.state, close.state);
    if !close.node then Parsed(Nil, close.state)
    else
      var r := IfBlocks(close.state, token, condition.node);
      StepsCompose(s, close.state, r.state);
      r
  }

  /** The rest of `parseIfExpression`, from the `)` after the condition on. */
  function IfBlocks(s: PState, token: Token, condition: Expr): (r: Parsed<Expr>)
    requires Good(s) && token.kind == IF && Agrees(condition)
    ensures Extends(s, condition, r)
    ensures r.node != Nil ==> r.node.If? && r.node.token == token && r.node.condition == condition
    ensures r.node == Nil ==> Expected(r.state, LBRACE)
    decreases |s.ts| - s.cur, 2
  {
    var brace := ExpectPeek(s, LBRACE);
    if !brace.node then Parsed(Nil, brace.state)
    else
      var consequence := ParseBlockStatement(brace.state);
      var r := ElseBlock(consequence.state, token, condition, consequence.node);
      assert Step(s, consequence.state) && Step(consequence.state, r.state);
      assert Clean(s, r.state) ==> Clean(brace.state, consequence.state) && Clean(consequence.state, r.state);
      r
  }

  /** The optional `else` branch of `parseIfExpression`, entered on the consequence's last token. */
  function ElseBlock(s: PState, token: Token, condition: Expr, consequence: Block): (r: Parsed<Expr>)
    requires Good(s) && token.kind == IF && Agrees(condition) && BlockAgrees(consequence)
    ensures Step(s, r.state) && Agrees(r.node)
    ensures Clean(s, r.state) && Complete(condition) && BlockComplete(consequence) ==> Complete(r.node)
    ensures r.node != Nil ==> r.node.If? && r.node.token == token && r.node.condition == condition
                              && r.node.consequence == consequence
    ensures r.node == Nil ==> Expected(r.state, LBRACE)
    decreases |s.ts| - s.cur, 2
  {
    if Peeked(s).kind != ELSE then Parsed(If(token, condition, consequence, None), s)
    else
      var brace := ExpectPeek(NextToken(s), LBRACE);
      if !brace.node then Parsed(Nil, brace.state)
      else
        var alternative := ParseBlockStatement(brace.state);
        Parsed(If(token, condition, consequence, Some(alternative.node)), alternative.state)
  }

  /** `parseFunctionLiteral`: a failed parameter list leaves no parameters and parsing goes on. */
  function ParseFunctionLiteral(s: PState): (r: Parsed<Expr>)
    requires Good(s) && Current(s).kind == FUNCTION
    ensures ParsesExpr(s, r)
    decreases |s.ts| - s.cur, 2
  {
    var open := ExpectPeek(s, LPAREN);
    if !open.node then Parsed(Nil, open.state)
    else
      var parameters := ParseFunctionParameters(open.state);
      FunctionBody(parameters.state, Current(s), parameters.node)
  }

  /** The rest of `parseFunctionLiteral`, after the parameter list. */
  function FunctionBody(s: PState, token: Token, parameters: seq<Identifier>): (r: Parsed<Expr>)
    requires Good(s) && token.kind == FUNCTION && IdentifiersAgree(parameters)
    ensures ParsesExpr(s, r)
    decreases |s.ts| - s.cur, 2
  {
    var brace := ExpectPeek(s, LBRACE);
    if !brace.node then Parsed(Nil, brace.state)
    else
      var body := ParseBlockStatement(brace.state);
      Parsed(FunctionLiteral(token, parameters, body.node), body.state)
  }

  function ParseArrayLiteral(s: PState): (r: Parsed<Expr>)
    requires Good(s) && Current(s).kind == LBRACKET
    ensures ParsesExpr(s, r)
    decreases |s.ts| - s.cur, 2
  {
    var elements := ParseExpressionList(s, RBRACKET);
    Parsed(ArrayLiteral(Current(s), elements.node), elements.state)
  }

  /** `parseHashLiteral`: `{` pairs `}`; nil when a `:`, `,` or `}` is missing. */
  function ParseHashLiteral(s: PState): (r: Parsed<Expr>)
    requires Good(s) && Current(s).kind == LBRACE
    ensures ParsesExpr(s, r)
    ensures r.node != Nil ==> r.node.HashLiteral? && r.node.token == Current(s)
    ensures r.node == Nil ==> Expected(r.state, COLON) || Expected(r.state, COMMA) || Expected(r.state, RBRACE)
    decreases |s.ts| - s.cur, 2
  {
    var pairs := HashPairs(s, []);
    if pairs.node.None? then Parsed(Nil, pairs.state)
    else
      var closed := ExpectPeek(pairs.state, RBRACE);
      StepsCompose(s, pairs.state, closed.state);
      if !closed.node then Parsed(Nil, closed.state)
      else Parsed(HashLiteral(Current(s), pairs.node.value), closed.state)
  }

  /**
   * The `for` loop of `parseHashLiteral`, entered on `{` or `,`: None when
   * the loop returns nil, else the pairs once `}` is peeked.
   */
  function HashPairs(s: PState, acc: seq<Pair>): (r: Parsed<Option<seq<Pair>>>)
    requires Good(s) && Current(s).kind != EOF && PairsAgree(acc)
    ensures Step(s, r.state)
    ensures r.node.Some? ==> PairsAgree(r.node.value)
    ensures Clean(s, r.state) && PairsComplete(acc) ==> r.node.Some? && PairsComplete(r.node.value)
    ensures r.node.None? ==> Expected(r.state, COLON) || Expected(r.state, COMMA)
    ensures r.node.Some? ==> Peeked(r.state).kind == RBRACE
    decreases |s.ts| - s.cur, 1
  {
    if Peeked(s).kind == RBRACE then Parsed(Some(acc), s)
    else
      var key := ParseExpression(NextToken(s), LOWEST);
      var colon := ExpectPeek(key.state, COLON);
      if !colon.node then Parsed(None, colon.state)
      else HashValue(colon.state, acc, key.node)
  }

  /** One loop iteration of `parseHashLiteral` from the `:` on: the value, the store, the `,` check. */
  function HashValue(s: PState, acc: seq<Pair>, key: Expr): (r: Parsed<Option<seq<Pair>>>)
    requires Good(s) && Current(s).kind == COLON && PairsAgree(acc) && Agrees(key)
    ensures Step(s, r.state)
    ensures r.node.Some? ==> PairsAgree(r.node.value)
    ensures Clean(s, r.state) && PairsComplete(acc) && Complete(key)
            ==> r.node.Some? && PairsComplete(r.node.value)
    ensures r.node.None? ==> Expected(r.state, COLON) || Expected(r.state, COMMA)
    ensures r.node.Some? ==> Peeked(r.state).kind == RBRACE
    decreases |s.ts| - s.cur, 2
  {
    var value := ParseExpression(NextToken(s), LOWEST);
    var pairs := Put(acc, key, value.node);
    PutAgrees(acc, key, value.node);
    assert Clean(s, value.state) && PairsComplete(acc) && Complete(key) ==> PairsComplete(pairs) by {
      if Clean(s, value.state) && PairsComplete(acc) && Complete(key) {
        PutComplete(acc, key, value.node);
      }
    }
    if Peeked(value.state).kind != RBRACE then
      var comma := ExpectPeek(value.state, COMMA);
      if !comma.node then Parsed(None, comma.state)
      else HashPairs(comma.state, pairs)
    else HashPairs(value.state, pairs)
  }

  /** `parseInfixExpression`: the right operand binds at the operator's own precedence. */
  function ParseInfixExpression(s: PState, left: Expr): (r: Parsed<Expr>)
    requires Good(s) && IsOperator(Current(s).kind) && Agrees(left)
    ensures Extends(s, left, r)
    ensures r.node.Infix? && r.node.token == Current(s) && r.node.left == left && r.node.operator == Current(s).literal
    ensures r.node.right == ParseExpression(NextToken(s), Precedence(Current(s).kind)).node
    ensures HasPrefixFn(Peeked(s).kind)
            ==> Peeked(r.state).kind == SEMICOLON || Precedence(Peeked(r.state).kind) <= Precedence(Current(s).kind)
    decreases |s.ts| - s.cur, 2
  {
    var token := Current(s);
    var right := ParseExpression(NextToken(s), Precedence(token.kind));
    Parsed(Infix(token, left, token.literal, right.node), right.state)
  }

  function ParseCallExpression(s: PState, function_: Expr): (r: Parsed<Expr>)
    requires Good(s) && Current(s).kind == LPAREN && Agrees(function_)
    ensures Extends(s, function_, r)
    decreases |s.ts| - s.cur, 2
  {
    var arguments := ParseExpressionList(s, RPAREN);
    Parsed(Call(Current(s), function_, arguments.node), arguments.state)
  }

  function ParseIndexExpression(s: PState, left: Expr): (r: Parsed<Expr>)
    requires Good(s) && Current(s).kind == LBRACKET && Agrees(left)
    ensures Extends(s, left, r)
    ensures var index := ParseExpression(NextToken(s), LOWEST);
            (r.node == Nil <==> Peeked(index.state).kind != RBRACKET)
            && (r.node == Nil ==> r.state == AddError(index.state, PeekError(RBRACKET, Peeked(index.state).kind)))
            && (r.node != Nil ==> r.node == Index(Current(s), left, index.node) && Current(r.state).kind == RBRACKET)
    decreases |s.ts| - s.cur, 2
  {
    var index := ParseExpression(NextToken(s), LOWEST);
    var closed := ExpectPeek(index.state, RBRACKET);
    StepsCompose(s, NextToken(s), index.state);
    StepsCompose(s, index.state, closed.state);
    if !closed.node then Parsed(Nil, closed.state)
    else Parsed(Index(Current(s), left, index.node), closed.state)
  }

  /**
   * `parseExpressionList`, entered on the opening token: comma-separated
   * expressions up to `end`. A missing `end` gives Go's nil slice, which
   * behaves as the empty list everywhere it is used.
   */
  function ParseExpressionList(s: PState, end: TokenType): (r: Parsed<seq<Expr>>)
    requires Good(s) && Current(s).kind != EOF
    ensures Step(s, r.state) && AllAgree(r.node)
    ensures Clean(s, r.state) ==> AllComplete(r.node)
    ensures Peeked(s).kind == end ==> r == Parsed([], NextToken(s))
    ensures r.node != [] ==> Current(r.state).kind == end
    ensures Peeked(s).kind != end && r.node == [] ==> Expected(r.state, end)
    decreases |s.ts| - s.cur, 1
  {
    if Peeked(s).kind == end then Parsed([], NextToken(s))
    else
      var first := ParseExpression(NextToken(s), LOWEST);
      var list := ExpressionListTail(first.state, [first.node]);
      var closed := ExpectPeek(list.state, end);
      if !closed.node then Parsed([], closed.state) else Parsed(list.node, closed.state)
  }

  /** The `for` loop of `parseExpressionList`: one more element per peeked `,`. */
  function ExpressionListTail(s: PState, acc: seq<Expr>): (r: Parsed<seq<Expr>>)
    requires Good(s) && AllAgree(acc)
    ensures Step(s, r.state) && AllAgree(r.node)
    ensures Clean(s, r.state) && AllComplete(acc) ==> AllComplete(r.node)
    ensures |r.node| >= |acc| && r.node[..|acc|] == acc
    ensures Peeked(r.state).kind != COMMA
    decreases |s.ts| - s.cur, 1
  {
    if Peeked(s).kind != COMMA then Parsed(acc, s)
    else
      var element := NextToken(NextToken(s));
      assert s.cur < element.cur;
      var e := ParseExpression(element, LOWEST);
      var more := acc + [e.node];
      assert AllAgree(more) && (Clean(s, e.state) && AllComplete(acc) ==> AllComplete(more));
      assert more[..|acc|] == acc;
      ExpressionListTail(e.state, more)
  }

  /** `parseFunctionParameters`, entered on `(`: each parameter is whatever token stands there. */
  function ParseFunctionParameters(s: PState): (r: Parsed<seq<Identifier>>)
    requires Good(s) && Current(s).kind != EOF
    ensures Step(s, r.state) && IdentifiersAgree(r.node)
    ensures Peeked(s).kind == RPAREN ==> r == Parsed([], NextToken(s))
    ensures r.node != [] ==> r.state.cur == s.cur + 2 * |r.node| && Current(r.state).kind == RPAREN && r.state.errors == s.errors
    ensures forall i :: 0 <= i < |r.node| ==> r.node[i].token == s.ts[s.cur + 1 + 2 * i]
    ensures Peeked(s).kind != RPAREN && r.node == [] ==> Expected(r.state, RPAREN) && |r.state.errors| == |s.errors| + 1
    decreases |s.ts| - s.cur, 1
  {
    if Peeked(s).kind == RPAREN then Parsed([], NextToken(s))
    else
      var s1 := NextToken(s);
      var ids := ParameterTail(s1, [Identifier(Current(s1), Current(s1).literal)]);
      assert ids.node[0] == ids.node[..1][0] && ids.state.cur == s.cur + 1 + 2 * (|ids.node| - 1);
      var closed := ExpectPeek(ids.state, RPAREN);
      if !closed.node then Parsed([], closed.state) else Parsed(ids.node, closed.state)
  }

  /** The `for` loop of `parseFunctionParameters`: one more identifier per peeked `,`. */
  function ParameterTail(s: PState, acc: seq<Identifier>): (r: Parsed<seq<Identifier>>)
    requires Good(s) && IdentifiersAgree(acc)
    ensures Step(s, r.state) && r.state.errors == s.errors && IdentifiersAgree(r.node)
    ensures |r.node| >= |acc| && r.node[..|acc|] == acc
    ensures r.state.cur == s.cur + 2 * (|r.node| - |acc|)
    ensures forall i :: |acc| <= i < |r.node| ==> r.node[i].token == s.ts[s.cur + 2 * (i - |acc|) + 2]
    ensures Peeked(r.state).kind != COMMA
    decreases |s.ts| - s.cur
  {
    if Peeked(s).kind != COMMA then Parsed(acc, s)
    else
      var s1 := NextToken(NextToken(s));
      var r := ParameterTail(s1, acc + [Identifier(Current(s1), Current(s1).literal)]);
      assert (acc + [Identifier(Current(s1), Current(s1).literal)])[..|acc|] == acc;
      r
  }

  // ---------------------------------------------------------------------------
  // Statements and blocks

  /** `parseBlockStatement`, entered on `{`: statements until `}` or EOF. */
  function ParseBlockStatement(s: PState): (r: Parsed<Block>)
    requires Good(s) && Current(s).kind == LBRACE
    ensures Step(s, r.state) && BlockAgrees(r.node) && r.node.token == Current(s)
    ensures Clean(s, r.state) ==> BlockComplete(r.node)
    ensures Current(r.state).kind == RBRACE || Current(r.state).kind == EOF
    decreases |s.ts| - s.cur, 1
  {
    var statements := BlockStatements(NextToken(s), []);
    Parsed(Block(Current(s), statements.node), statements.state)
  }

  /** The `for` loop of `parseBlockStatement`: a statement, then a step past its last token. */
  function BlockStatements(s: PState, acc: seq<Stmt>): (r: Parsed<seq<Stmt>>)
    requires Good(s) && StmtsAgree(acc)
    ensures Step(s, r.state) && StmtsAgree(r.node)
    ensures Clean(s, r.state) && StmtsComplete(acc) ==> StmtsComplete(r.node)
    ensures Current(r.state).kind == RBRACE || Current(r.state).kind == EOF
    decreases |s.ts| - s.cur, 7
  {
    if Current(s).kind == RBRACE || Current(s).kind == EOF then Parsed(acc, s)
    else
      var statement := ParseStatement(s);
      BlockStatements(NextToken(statement.state), acc + [statement.node])
  }

  /** `parseStatement`: `let`, `return`, or an expression statement. */
  function ParseStatement(s: PState): (r: Parsed<Stmt>)
    requires Good(s)
    ensures ParsesStmt(s, r)
    decreases |s.ts| - s.cur, 6
  {
    if Current(s).kind == LET then ParseLetStatement(s)
    else if Current(s).kind == RETURN then ParseReturnStatement(s)
    else ParseExpressionStatement(s)
  }

  /** `parseLetStatement`: a missing name or `=` gives the typed nil statement, NilLet. */
  function ParseLetStatement(s: PState): (r: Parsed<Stmt>)
    requires Good(s) && Current(s).kind == LET
    ensures ParsesStmt(s, r)
    ensures r.node == NilLet <==> !Clean(s, r.state) && r.state.cur <= s.cur + 1
    decreases |s.ts| - s.cur, 5
  {
    var name := ExpectPeek(s, IDENT);
    if !name.node then Parsed(NilLet, name.state)
    else
      var assign := ExpectPeek(name.state, ASSIGN);
      StepsCompose(s, name.state, assign.state);
      if !assign.node then Parsed(NilLet, assign.state)
      else
        var value := ParseExpression(NextToken(assign.state), LOWEST);
        StepsCompose(s, assign.state, NextToken(assign.state));
        StepsCompose(s, NextToken(assign.state), value.state);
        StepsCompose(s, value.state, SkipSemicolon(value.state));
        var id := Identifier(Current(name.state), Current(name.state).literal);
        Parsed(Let(Current(s), id, value.node), SkipSemicolon(value.state))
  }

  function ParseReturnStatement(s: PState): (r: Parsed<Stmt>)
    requires Good(s) && Current(s).kind == RETURN
    ensures ParsesStmt(s, r) && r.node.Return?
    decreases |s.ts| - s.cur, 5
  {
    var value := ParseExpression(NextToken(s), LOWEST);
    Parsed(Return(Current(s), value.node), SkipSemicolon(value.state))
  }

  function ParseExpressionStatement(s: PState): (r: Parsed<Stmt>)
    requires Good(s)
    ensures ParsesStmt(s, r) && r.node.ExpressionStatement? && r.node.token == Current(s)
    decreases |s.ts| - s.cur, 5
  {
    var expression := ParseExpression(s, LOWEST);
    Parsed(ExpressionStatement(Current(s), expression.node), SkipSemicolon(expression.state))
  }

  // ---------------------------------------------------------------------------
  // Programs

  /** The `for` loop of `ParseProgram`: every statement is kept, the typed nil of a failed `let` too. */
  function ProgramStatements(s: PState, acc: seq<Stmt>): (r: Parsed<seq<Stmt>>)
    requires Good(s) && StmtsAgree(acc)
    ensures Step(s, r.state) && StmtsAgree(r.node)
    ensures Clean(s, r.state) && StmtsComplete(acc) ==> StmtsComplete(r.node)
    ensures r.state.cur == |s.ts| - 1
    ensures |r.node| >= |acc| && r.node[..|acc|] == acc
    decreases |s.ts| - s.cur
  {
    if Current(s).kind == EOF then Parsed(acc, s)
    else
      var statement := ParseStatement(s);
      var r := ProgramStatements(NextToken(statement.state), acc + [statement.node]);
      assert (acc + [statement.node])[..|acc|] == acc;
      r
  }

  /**
   * `New` followed by `ParseProgram`: the program and the errors reported.
   * Every token is read; a parse that reports no error has no nil in it.
   */
  function ParseProgram(ts: seq<Token>): (r: Parsed<Program>)
    requires IsTokenStream(ts)
    ensures r.state.ts == ts && r.state.cur == |ts| - 1
    ensures r.state.errors == [] ==> ProgramComplete(r.node)
    ensures StmtsAgree(r.node.statements)
  {
    var statements := ProgramStatements(Start(ts), []);
    Parsed(Program(statements.node), statements.state)
  }
}
