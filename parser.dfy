/**
 * The parser object as the source has it: a lexer, the error list, the
 * current and the peeked token, and one method per grammar rule that
 * advances through the tokens in place. Each method is proved to build the
 * node, and leave the state, that the corresponding function of `Parsing`
 * describes.
 *
 * The prefix and infix handler tables that `New` fills are fixed, so they
 * are the predicates `Parsing.HasPrefixFn` / `Parsing.HasInfixFn`, and a
 * handler call through a table is a dispatch on the token type.
 */
module Parser {
  import opened Tokens
  import opened Ast
  import Parsing
  import Strconv

  /**
   * The lexer as the parser uses it: `NextToken` hands out the tokens in
   * order and, once it has handed out EOF, hands it out again. Scanning
   * source text into tokens is not part of this model.
   */
  class Lexer {
    const tokens: seq<Token>
    var position: nat

    constructor (tokens: seq<Token>)
      ensures this.tokens == tokens && position == 0
    {
      this.tokens := tokens;
      position := 0;
    }

    method NextToken() returns (t: Token)
      requires position < |tokens|
      modifies this
      ensures t == tokens[old(position)]
      ensures position == if old(position) + 1 < |tokens| then old(position) + 1 else old(position)
    {
      t := tokens[position];
      if position + 1 < |tokens| {
        position := position + 1;
      }
    }
  }

  class Parser {
    const lexer: Lexer
    var errors: seq<string>
    var currentToken: Token
    var peekedToken: Token
    /** The index of currentToken in the lexer's tokens. */
    ghost var cur: nat

    /** The current token is token `cur`, the peeked one the next, and the lexer stands after that. */
    ghost predicate Valid()
      reads this, lexer
    {
      Parsing.Good(State())
      && currentToken == Parsing.Current(State())
      && peekedToken == Parsing.Peeked(State())
      && lexer.position == (if cur + 2 < |lexer.tokens| then cur + 2 else |lexer.tokens| - 1)
    }

    /** The state the functions of `Parsing` speak about. */
    ghost function State(): Parsing.PState
      reads this, lexer
    {
      Parsing.PState(lexer.tokens, cur, errors)
    }

    /** `New`: no errors yet; two calls of `nextToken` make the first token current. */
    constructor (l: Lexer)
      requires IsTokenStream(l.tokens) && l.position == 0
      modifies l
      ensures lexer == l && Valid() && State() == Parsing.Start(l.tokens)
    {
      lexer := l;
      errors := [];
      // Go's zero Token; both are replaced before anything reads them.
      currentToken := Token(ILLEGAL, "");
      peekedToken := Token(ILLEGAL, "");
      cur := 0;
      new;
      NextToken();
      NextToken();
      cur := 0;
    }

    function Errors(): seq<string>
      reads this
    {
      errors
    }

    predicate CurrentTokenIs(t: TokenType)
      reads this
    {
      currentToken.kind == t
    }

    predicate PeekedTokenIs(t: TokenType)
      reads this
    {
      peekedToken.kind == t
    }

    function CurrentPrecedence(): int
      reads this
    {
      Parsing.Precedence(currentToken.kind)
    }

    function PeekPrecedence(): int
      reads this
    {
      Parsing.Precedence(peekedToken.kind)
    }

    /** `nextToken`: the peeked token becomes current and the lexer supplies the next one. */
    method NextToken()
      requires IsTokenStream(lexer.tokens) && lexer.position < |lexer.tokens|
      modifies this, lexer
      ensures currentToken == old(peekedToken) && peekedToken == lexer.tokens[old(lexer.position)]
      ensures lexer.position == if old(lexer.position) + 1 < |lexer.tokens| then old(lexer.position) + 1 else old(lexer.position)
      ensures errors == old(errors)
      ensures cur == if old(cur) + 1 < |lexer.tokens| then old(cur) + 1 else old(cur)
      ensures old(Valid()) ==> Valid() && State() == Parsing.NextToken(old(State()))
    {
      currentToken := peekedToken;
      peekedToken := lexer.NextToken();
      cur := if cur + 1 < |lexer.tokens| then cur + 1 else cur;
    }

    method NoPrefixParseFnError(t: TokenType)
      modifies this
      ensures errors == old(errors) + [Parsing.NoPrefixParseFnError(t)]
      ensures currentToken == old(currentToken) && peekedToken == old(peekedToken) && cur == old(cur)
    {
      errors := errors + [Parsing.NoPrefixParseFnError(t)];
    }

    method PeekError(t: TokenType)
      modifies this
      ensures errors == old(errors) + [Parsing.PeekError(t, peekedToken.kind)]
      ensures currentToken == old(currentToken) && peekedToken == old(peekedToken) && cur == old(cur)
    {
      errors := errors + [Parsing.PeekError(t, peekedToken.kind)];
    }

    /** `expectPeek`. */
    method ExpectPeek(t: TokenType) returns (ok: bool)
      requires Valid()
      modifies this, lexer
      ensures Valid() && Parsing.Parsed(ok, State()) == Parsing.ExpectPeek(old(State()), t)
    {
      if PeekedTokenIs(t) {
        NextToken();
        return true;
      }
      PeekError(t);
      return false;
    }

    /** `if p.peekedTokenIs(token.SEMICOLON) { p.nextToken() }` */
    method SkipSemicolon()
      requires Valid()
      modifies this, lexer
      ensures Valid() && State() == Parsing.SkipSemicolon(old(State()))
    {
      if PeekedTokenIs(SEMICOLON) {
        NextToken();
      }
    }

    // -------------------------------------------------------------------------
    // Programs and statements

    /** `ParseProgram`: statements until EOF, each followed by a step past its last token. */
    method ParseProgram() returns (program: Program)
      requires Valid()
      modifies this, lexer
      ensures Valid()
      ensures Parsing.Parsed(program, State())
           == (var r := Parsing.ProgramStatements(old(State()), []); Parsing.Parsed(Program(r.node), r.state))
    {
      var statements: seq<Stmt> := [];
      ghost var target := Parsing.ProgramStatements(State(), statements);
      while !CurrentTokenIs(EOF)
        invariant Valid() && Parsing.StmtsAgree(statements)
        invariant Parsing.ProgramStatements(State(), statements) == target
        decreases |lexer.tokens| - cur
      {
        var stmt := ParseStatement();
        // The Go `stmt != nil` test always holds: a failed let is a non-nil interface around a nil pointer.
        Parsing.StmtsAgreeAppend(statements, stmt);
        statements := statements + [stmt];
        NextToken();
      }
      program := Program(statements);
    }

    method ParseStatement() returns (stmt: Stmt)
      requires Valid()
      modifies this, lexer
      ensures Valid() && Parsing.Parsed(stmt, State()) == Parsing.ParseStatement(old(State()))
      decreases |lexer.tokens| - cur, 6
    {
      if currentToken.kind == LET {
        stmt := ParseLetStatement();
      } else if currentToken.kind == RETURN {
        stmt := ParseReturnStatement();
      } else {
        stmt := ParseExpressionStatement();
      }
    }

    method ParseLetStatement() returns (stmt: Stmt)
      requires Valid() && currentToken.kind == LET
      modifies this, lexer
      ensures Valid() && Parsing.Parsed(stmt, State()) == Parsing.ParseLetStatement(old(State()))
      decreases |lexer.tokens| - cur, 5
    {
      var token := currentToken;
      var ok := ExpectPeek(IDENT);
      if !ok {
        return NilLet;
      }
      var name := Identifier(currentToken, currentToken.literal);
      ok := ExpectPeek(ASSIGN);
      if !ok {
        return NilLet;
      }
      NextToken();
      var value := ParseExpression(Parsing.LOWEST);
      SkipSemicolon();
      return Let(token, name, value);
    }

    method ParseReturnStatement() returns (stmt: Stmt)
      requires Valid() && currentToken.kind == RETURN
      modifies this, lexer
      ensures Valid() && Parsing.Parsed(stmt, State()) == Parsing.ParseReturnStatement(old(State()))
      decreases |lexer.tokens| - cur, 5
    {
      var token := currentToken;
      NextToken();
      var value := ParseExpression(Parsing.LOWEST);
      SkipSemicolon();
      return Return(token, value);
    }

    method ParseExpressionStatement() returns (stmt: Stmt)
      requires Valid()
      modifies this, lexer
      ensures Valid() && Parsing.Parsed(stmt, State()) == Parsing.ParseExpressionStatement(old(State()))
      decreases |lexer.tokens| - cur, 5
    {
      var token := currentToken;
      var expression := ParseExpression(Parsing.LOWEST);
      SkipSemicolon();
      return ExpressionStatement(token, expression);
    }

    /** `parseBlockStatement`, entered on `{`. */
    method ParseBlockStatement() returns (block: Block)
      requires Valid() && currentToken.kind == LBRACE
      modifies this, lexer
      ensures Valid() && Parsing.Parsed(block, State()) == Parsing.ParseBlockStatement(old(State()))
      decreases |lexer.tokens| - cur, 1
    {
      var token := currentToken;
      NextToken();
      var statements := BlockStatements();
      return Block(token, statements);
    }

    /** The `for` loop of `parseBlockStatement`: statements until `}` or EOF. */
    method BlockStatements() returns (statements: seq<Stmt>)
      requires Valid()
      modifies this, lexer
      ensures Valid() && Parsing.Parsed(statements, State()) == Parsing.BlockStatements(old(State()), [])
      decreases |lexer.tokens| - cur, 7
    {
      statements := [];
      ghost var target := Parsing.BlockStatements(State(), statements);
      while !CurrentTokenIs(RBRACE) && !CurrentTokenIs(EOF)
        invariant Valid() && old(cur) <= cur && Parsing.StmtsAgree(statements)
        invariant Parsing.BlockStatements(State(), statements) == target
        decreases |lexer.tokens| - cur
      {
        var stmt := ParseStatement();
        Parsing.StmtsAgreeAppend(statements, stmt);
        statements := statements + [stmt];
        NextToken();
      }
    }

    // -------------------------------------------------------------------------
    // Expressions

    /** `parseExpression`: the prefix handler, then the infix loop. */
    method ParseExpression(precedence: int) returns (left: Expr)
      requires Valid()
      modifies this, lexer
      ensures Valid() && Parsing.Parsed(left, State()) == Parsing.ParseExpression(old(State()), precedence)
      decreases |lexer.tokens| - cur, 4
    {
      ghost var s := State();
      var k := currentToken.kind;
      if !Parsing.HasPrefixFn(k) {
        NoPrefixParseFnError(k);
        assert State() == Parsing.AddError(s, Parsing.NoPrefixParseFnError(k));
        return Nil;
      }
      left := ParsePrefix();
      Parsing.PrefixThenLoop(s, precedence, Parsing.Parsed(left, State()));
      left := ExpressionLoop(left, precedence);
    }

    /** The `for` loop of `parseExpression`: infix handlers while the peeked token binds tighter. */
    method ExpressionLoop(left0: Expr, precedence: int) returns (left: Expr)
      requires Valid() && Parsing.Agrees(left0)
      modifies this, lexer
      ensures Valid() && Parsing.Parsed(left, State()) == Parsing.ExpressionLoop(old(State()), left0, precedence)
      decreases |lexer.tokens| - cur, 3
    {
      left := left0;
      ghost var target := Parsing.ExpressionLoop(State(), left, precedence);
      while !PeekedTokenIs(SEMICOLON) && precedence < PeekPrecedence()
        invariant Valid() && old(cur) <= cur && Parsing.Agrees(left)
        invariant Parsing.ExpressionLoop(State(), left, precedence) == target
        decreases |lexer.tokens| - cur
      {
        if !Parsing.HasInfixFn(peekedToken.kind) {
          return;
        }
        Parsing.ExpressionLoopStep(State(), left, precedence);
        NextToken();
        left := ParseInfix(left);
      }
    }

    /** Calling the prefix parse function registered for the current token type. */
    method ParsePrefix() returns (e: Expr)
      requires Valid() && Parsing.HasPrefixFn(currentToken.kind)
      modifies this, lexer
      ensures Valid() && Parsing.Parsed(e, State()) == Parsing.ParsePrefix(old(State()))
      decreases |lexer.tokens| - cur, 3
    {
      var k := currentToken.kind;
      if k == IDENT {
        e := ParseIdentifier();
      } else if k == INT {
        e := ParseIntegerLiteral();
      } else if k == BANG || k == MINUS {
        e := ParsePrefixExpression();
      } else if k == TRUE || k == FALSE {
        e := ParseBoolean();
      } else if k == LPAREN {
        e := ParseGroupedExpression();
      } else if k == IF {
        e := ParseIfExpression();
      } else if k == FUNCTION {
        e := ParseFunctionLiteral();
      } else if k == STRING {
        e := ParseStringLiteral();
      } else if k == LBRACKET {
        e := ParseArrayLiteral();
      } else {
        e := ParseHashLiteral();
      }
    }

    /** Calling the infix parse function registered for the current token type. */
    method ParseInfix(left: Expr) returns (e: Expr)
      requires Valid() && Parsing.HasInfixFn(currentToken.kind) && Parsing.Agrees(left)
      modifies this, lexer
      ensures Valid() && Parsing.Parsed(e, State()) == Parsing.ParseInfix(old(State()), left)
      decreases |lexer.tokens| - cur, 3
    {
      if currentToken.kind == LPAREN {
        e := ParseCallExpression(left);
      } else if currentToken.kind == LBRACKET {
        e := ParseIndexExpression(left);
      } else {
        e := ParseInfixExpression(left);
      }
    }

    method ParseIdentifier() returns (e: Expr)
      requires Valid() && currentToken.kind == IDENT
      modifies this, lexer
      ensures Valid() && Parsing.Parsed(e, State()) == Parsing.ParseIdentifier(old(State()))
    {
      return Ident(Identifier(currentToken, currentToken.literal));
    }

    method ParseIntegerLiteral() returns (e: Expr)
      requires Valid() && currentToken.kind == INT
      modifies this, lexer
      ensures Valid() && Parsing.Parsed(e, State()) == Parsing.ParseIntegerLiteral(old(State()))
    {
      var value := Strconv.ParseInt(currentToken.literal);
      if value.None? {
        errors := errors + [Parsing.IntegerError(currentToken.literal)];
        return Nil;
      }
      return IntegerLiteral(currentToken, value.value);
    }

    method ParseBoolean() returns (e: Expr)
      requires Valid() && (currentToken.kind == TRUE || currentToken.kind == FALSE)
      modifies this, lexer
      ensures Valid() && Parsing.Parsed(e, State()) == Parsing.ParseBoolean(old(State()))
    {
      return BooleanLiteral(currentToken, CurrentTokenIs(TRUE));
    }

    method ParseStringLiteral() returns (e: Expr)
      requires Valid() && currentToken.kind == STRING
      modifies this, lexer
      ensures Valid() && Parsing.Parsed(e, State()) == Parsing.ParseStringLiteral(old(State()))
    {
      return StringLiteral(currentToken, currentToken.literal);
    }

    method ParsePrefixExpression() returns (e: Expr)
      requires Valid() && (currentToken.kind == BANG || currentToken.kind == MINUS)
      modifies this, lexer
      ensures Valid() && Parsing.Parsed(e, State()) == Parsing.ParsePrefixExpression(old(State()))
      decreases |lexer.tokens| - cur, 2
    {
      var token := currentToken;
      NextToken();
      var right := ParseExpression(Parsing.PREFIX);
      return Prefix(token, token.literal, right);
    }

    method ParseGroupedExpression() returns (e: Expr)
      requires Valid() && currentToken.kind == LPAREN
      modifies this, lexer
      ensures Valid() && Parsing.Parsed(e, State()) == Parsing.ParseGroupedExpression(old(State()))
      decreases |lexer.tokens| - cur, 2
    {
      NextToken();
      e := ParseExpression(Parsing.LOWEST);
      var ok := ExpectPeek(RPAREN);
      if !ok {
        return Nil;
      }
    }

    /** `parseIfExpression`, up to the `)` after the condition. */
    method ParseIfExpression() returns (e: Expr)
      requires Valid() && currentToken.kind == IF
      modifies this, lexer
      ensures Valid() && Parsing.Parsed(e, State()) == Parsing.ParseIfExpression(old(State()))
      decreases |lexer.tokens| - cur, 2
    {
      var token := currentToken;
      var ok := ExpectPeek(LPAREN);
      if !ok {
        return Nil;
      }
      NextToken();
      var condition := ParseExpression(Parsing.LOWEST);
      ok := ExpectPeek(RPAREN);
      if !ok {
        return Nil;
      }
      e := IfBlocks(token, condition);
    }

    /** The rest of `parseIfExpression`: the consequence and, after `else`, the alternative. */
    method IfBlocks(token: Token, condition: Expr) returns (e: Expr)
      requires Valid() && token.kind == IF && Parsing.Agrees(condition)
      modifies this, lexer
      ensures Valid() && Parsing.Parsed(e, State()) == Parsing.IfBlocks(old(State()), token, condition)
      decreases |lexer.tokens| - cur, 2
    {
      var ok := ExpectPeek(LBRACE);
      if !ok {
        return Nil;
      }
      var consequence := ParseBlockStatement();
      e := ElseBlock(token, condition, consequence);
    }

    /** The optional `else` branch, entered on the consequence's `}`. */
    method ElseBlock(token: Token, condition: Expr, consequence: Block) returns (e: Expr)
      requires Valid() && token.kind == IF && Parsing.Agrees(condition) && Parsing.BlockAgrees(consequence)
      modifies this, lexer
      ensures Valid() && Parsing.Parsed(e, State()) == Parsing.ElseBlock(old(State()), token, condition, consequence)
      decreases |lexer.tokens| - cur, 2
    {
      if !PeekedTokenIs(ELSE) {
        return If(token, condition, consequence, Wrappers.None);
      }
      NextToken();
      var ok := ExpectPeek(LBRACE);
      if !ok {
        return Nil;
      }
      var alternative := ParseBlockStatement();
      return If(token, condition, consequence, Wrappers.Some(alternative));
    }

    method ParseFunctionLiteral() returns (e: Expr)
      requires Valid() && currentToken.kind == FUNCTION
      modifies this, lexer
      ensures Valid() && Parsing.Parsed(e, State()) == Parsing.ParseFunctionLiteral(old(State()))
      decreases |lexer.tokens| - cur, 2
    {
      var token := currentToken;
      var ok := ExpectPeek(LPAREN);
      if !ok {
        return Nil;
      }
      var parameters := ParseFunctionParameters();
      ok := ExpectPeek(LBRACE);
      if !ok {
        return Nil;
      }
      var body := ParseBlockStatement();
      return FunctionLiteral(token, parameters, body);
    }

    /** `parseFunctionParameters`: a missing `)` gives the nil slice, here the empty list. */
    method ParseFunctionParameters() returns (identifiers: seq<Identifier>)
      requires Valid() && currentToken.kind != EOF
      modifies this, lexer
      ensures Valid() && Parsing.Parsed(identifiers, State()) == Parsing.ParseFunctionParameters(old(State()))
    {
      if PeekedTokenIs(RPAREN) {
        NextToken();
        return [];
      }
      NextToken();
      identifiers := ParameterTail([Identifier(currentToken, currentToken.literal)]);
      var ok := ExpectPeek(RPAREN);
      if !ok {
        return [];
      }
    }

    /** The `for` loop of `parseFunctionParameters`: one more identifier per peeked `,`. */
    method ParameterTail(acc: seq<Identifier>) returns (identifiers: seq<Identifier>)
      requires Valid() && Parsing.IdentifiersAgree(acc)
      modifies this, lexer
      ensures Valid() && Parsing.Parsed(identifiers, State()) == Parsing.ParameterTail(old(State()), acc)
    {
      identifiers := acc;
      ghost var target := Parsing.ParameterTail(State(), identifiers);
      while PeekedTokenIs(COMMA)
        invariant Valid() && Parsing.IdentifiersAgree(identifiers)
        invariant Parsing.ParameterTail(State(), identifiers) == target
        decreases |lexer.tokens| - cur
      {
        ghost var s1 := Parsing.NextToken(Parsing.NextToken(State()));
        assert Parsing.ParameterTail(State(), identifiers)
            == Parsing.ParameterTail(s1, identifiers + [Identifier(Parsing.Current(s1), Parsing.Current(s1).literal)]);
        NextToken();
        NextToken();
        identifiers := identifiers + [Identifier(currentToken, currentToken.literal)];
      }
    }

    method ParseArrayLiteral() returns (e: Expr)
      requires Valid() && currentToken.kind == LBRACKET
      modifies this, lexer
      ensures Valid() && Parsing.Parsed(e, State()) == Parsing.ParseArrayLiteral(old(State()))
      decreases |lexer.tokens| - cur, 2
    {
      var token := currentToken;
      var elements := ParseExpressionList(RBRACKET);
      return ArrayLiteral(token, elements);
    }

    /** `parseExpressionList`: a missing `end` gives the nil slice, here the empty list. */
    method ParseExpressionList(end: TokenType) returns (list: seq<Expr>)
      requires Valid() && currentToken.kind != EOF
      modifies this, lexer
      ensures Valid() && Parsing.Parsed(list, State()) == Parsing.ParseExpressionList(old(State()), end)
      decreases |lexer.tokens| - cur, 1
    {
      if PeekedTokenIs(end) {
        NextToken();
        return [];
      }
      ghost var s0 := State();
      NextToken();
      var first := ParseExpression(Parsing.LOWEST);
      ghost var s1 := State();
      assert Parsing.ParseExpression(Parsing.NextToken(s0), Parsing.LOWEST) == Parsing.Parsed(first, s1);
      list := ExpressionListTail([first]);
      assert Parsing.ExpressionListTail(s1, [first]) == Parsing.Parsed(list, State());
      var ok := ExpectPeek(end);
      if !ok {
        return [];
      }
    }

    /** The `for` loop of `parseExpressionList`: one more element per peeked `,`. */
    method ExpressionListTail(acc: seq<Expr>) returns (list: seq<Expr>)
      requires Valid() && Parsing.AllAgree(acc)
      modifies this, lexer
      ensures Valid() && Parsing.Parsed(list, State()) == Parsing.ExpressionListTail(old(State()), acc)
      decreases |lexer.tokens| - cur, 1
    {
      list := acc;
      ghost var target := Parsing.ExpressionListTail(State(), list);
      while PeekedTokenIs(COMMA)
        invariant Valid() && old(cur) <= cur && Parsing.AllAgree(list)
        invariant Parsing.ExpressionListTail(State(), list) == target
        decreases |lexer.tokens| - cur
      {
        NextToken();
        NextToken();
        var e := ParseExpression(Parsing.LOWEST);
        Parsing.AllAgreeAppend(list, e);
        list := list + [e];
      }
    }

    /** `parseHashLiteral`: `{` pairs `}`; nil when a `:`, `,` or `}` is missing. */
    method ParseHashLiteral() returns (e: Expr)
      requires Valid() && currentToken.kind == LBRACE
      modifies this, lexer
      ensures Valid() && Parsing.Parsed(e, State()) == Parsing.ParseHashLiteral(old(State()))
      decreases |lexer.tokens| - cur, 2
    {
      var token := currentToken;
      var pairs := HashPairs();
      if pairs.None? {
        return Nil;
      }
      var ok := ExpectPeek(RBRACE);
      if !ok {
        return Nil;
      }
      return HashLiteral(token, pairs.value);
    }

    /**
     * The `for` loop of `parseHashLiteral`: a key, `:`, and the rest of the
     * pair, until `}` is peeked; None where the source returns nil.
     */
    method HashPairs() returns (pairs: Wrappers.Option<seq<Pair>>)
      requires Valid() && currentToken.kind != EOF
      modifies this, lexer
      ensures Valid() && Parsing.Parsed(pairs, State()) == Parsing.HashPairs(old(State()), [])
      decreases |lexer.tokens| - cur, 1
    {
      var acc: seq<Pair> := [];
      ghost var target := Parsing.HashPairs(State(), acc);
      while !PeekedTokenIs(RBRACE)
        invariant Valid() && old(cur) <= cur && currentToken.kind != EOF && Parsing.PairsAgree(acc)
        invariant Parsing.HashPairs(State(), acc) == target
        decreases |lexer.tokens| - cur
      {
        NextToken();
        var key := ParseExpression(Parsing.LOWEST);
        var ok := ExpectPeek(COLON);
        if !ok {
          return Wrappers.None;
        }
        ok, acc := HashValue(acc, key);
        if !ok {
          return Wrappers.None;
        }
      }
      return Wrappers.Some(acc);
    }

    /** One pair from its `:` on: the value, the store into the pairs, the `,` check. */
    method HashValue(acc: seq<Pair>, key: Expr) returns (ok: bool, pairs: seq<Pair>)
      requires Valid() && currentToken.kind == COLON && Parsing.PairsAgree(acc) && Parsing.Agrees(key)
      modifies this, lexer
      ensures Valid() && old(cur) < cur && Parsing.PairsAgree(pairs)
      ensures ok ==> currentToken.kind != EOF
      ensures ok ==> Parsing.HashValue(old(State()), acc, key) == Parsing.HashPairs(State(), pairs)
      ensures !ok ==> Parsing.HashValue(old(State()), acc, key) == Parsing.Parsed(Wrappers.None, State())
      decreases |lexer.tokens| - cur, 2
    {
      NextToken();
      var value := ParseExpression(Parsing.LOWEST);
      Parsing.PutAgrees(acc, key, value);
      pairs := Parsing.Put(acc, key, value);
      ok := CommaUnlessClosed();
    }

    /** After a pair's value: a `}` is left for the caller, anything else must be `,`. */
    method CommaUnlessClosed() returns (ok: bool)
      requires Valid()
      modifies this, lexer
      ensures Valid()
      ensures Parsing.Peeked(old(State())).kind == RBRACE ==> ok && State() == old(State())
      ensures Parsing.Peeked(old(State())).kind != RBRACE
              ==> Parsing.Parsed(ok, State()) == Parsing.ExpectPeek(old(State()), COMMA)
    {
      ok := true;
      if !PeekedTokenIs(RBRACE) {
        ok := ExpectPeek(COMMA);
      }
    }

    method ParseInfixExpression(left: Expr) returns (e: Expr)
      requires Valid() && Parsing.IsOperator(currentToken.kind) && Parsing.Agrees(left)
      modifies this, lexer
      ensures Valid() && Parsing.Parsed(e, State()) == Parsing.ParseInfixExpression(old(State()), left)
      decreases |lexer.tokens| - cur, 2
    {
      var token := currentToken;
      var precedence := CurrentPrecedence();
      NextToken();
      var right := ParseExpression(precedence);
      return Infix(token, left, token.literal, right);
    }

    method ParseCallExpression(function_: Expr) returns (e: Expr)
      requires Valid() && currentToken.kind == LPAREN && Parsing.Agrees(function_)
      modifies this, lexer
      ensures Valid() && Parsing.Parsed(e, State()) == Parsing.ParseCallExpression(old(State()), function_)
      decreases |lexer.tokens| - cur, 2
    {
      var token := currentToken;
      var arguments := ParseExpressionList(RPAREN);
      return Call(token, function_, arguments);
    }

    method ParseIndexExpression(left: Expr) returns (e: Expr)
      requires Valid() && currentToken.kind == LBRACKET && Parsing.Agrees(left)
      modifies this, lexer
      ensures Valid() && Parsing.Parsed(e, State()) == Parsing.ParseIndexExpression(old(State()), left)
      decreases |lexer.tokens| - cur, 2
    {
      var token := currentToken;
      NextToken();
      var index := ParseExpression(Parsing.LOWEST);
      var ok := ExpectPeek(RBRACKET);
      if !ok {
        return Nil;
      }
      return Index(token, left, index);
    }
  }
}
