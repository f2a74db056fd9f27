/**
 * What the `String()` renderings of the AST promise: the shape of each
 * node's rendering, that operands and elements appear in source order, and
 * that the parenthesised renderings of operator trees are balanced.
 */
module AstFacts {
  import opened Wrappers
  import opened Tokens
  import opened Ast
  import Text
  import Strconv

  // ---------------------------------------------------------------------------
  // Balanced parentheses

  /** Opening minus closing parentheses in s. */
  function Depth(s: string): int
  {
    if s == [] then 0
    else Depth(s[..|s| - 1]) + (if s[|s| - 1] == '(' then 1 else if s[|s| - 1] == ')' then -1 else 0)
  }

  /** Every `)` closes an earlier `(`, and every `(` is closed. */
  predicate Balanced(s: string)
  {
    Depth(s) == 0 && forall k :: 0 <= k <= |s| ==> Depth(s[..k]) >= 0
  }

  predicate ParenFree(s: string)
  {
    forall i :: 0 <= i < |s| ==> s[i] != '(' && s[i] != ')'
  }

  lemma {:induction false} DepthConcat(a: string, b: string)
    ensures Depth(a + b) == Depth(a) + Depth(b)
  {
    if b == [] {
      assert a + b == a;
    } else {
      assert (a + b)[..|a + b| - 1] == a + b[..|b| - 1];
      DepthConcat(a, b[..|b| - 1]);
    }
  }

  lemma {:induction false} ParenFreeDepth(s: string)
    requires ParenFree(s)
    ensures Depth(s) == 0
  {
    if s != [] {
      assert ParenFree(s[..|s| - 1]);
      ParenFreeDepth(s[..|s| - 1]);
    }
  }

  lemma ParenFreeBalanced(s: string)
    requires ParenFree(s)
    ensures Balanced(s)
  {
    forall k | 0 <= k <= |s| ensures Depth(s[..k]) >= 0 {
      assert ParenFree(s[..k]);
      ParenFreeDepth(s[..k]);
    }
    ParenFreeDepth(s);
  }

  lemma BalancedConcat(a: string, b: string)
    requires Balanced(a) && Balanced(b)
    ensures Balanced(a + b)
  {
    DepthConcat(a, b);
    forall k | 0 <= k <= |a + b| ensures Depth((a + b)[..k]) >= 0 {
      if k <= |a| {
        assert (a + b)[..k] == a[..k];
      } else {
        assert (a + b)[..k] == a + b[..k - |a|];
        DepthConcat(a, b[..k - |a|]);
      }
    }
  }

  lemma BalancedWrap(a: string)
    requires Balanced(a)
    ensures Balanced("(" + a + ")")
  {
    var s := "(" + a + ")";
    DepthConcat("(", a);
    DepthConcat("(" + a, ")");
    forall k | 0 <= k <= |s| ensures Depth(s[..k]) >= 0 {
      if k == 0 {
      } else if k <= |a| + 1 {
        assert s[..k] == "(" + a[..k - 1];
        DepthConcat("(", a[..k - 1]);
      } else {
        assert s[..k] == s;
      }
    }
  }

  // ---------------------------------------------------------------------------
  // Operator nodes: ast/infix.go, ast/prefix.go, ast/index.go

  /** An infix rendering is wrapped in parentheses, with both operands inside, left first. */
  lemma InfixShape(t: Token, l: Expr, op: string, r: Expr)
    requires Renderable(l) && Renderable(r)
    ensures var s := String(Infix(t, l, op, r));
            s[0] == '(' && s[|s| - 1] == ')'
            && s[1..1 + |String(l)|] == String(l)
            && s[|s| - 1 - |String(r)|..|s| - 1] == String(r)
            && |s| == |String(l)| + |op| + |String(r)| + 4
  {
    SpacedShape(String(l), op, String(r));
  }

  /** The text of an infix node: parentheses around the left operand, the spaced operator and the right operand. */
  lemma SpacedShape(a: string, op: string, b: string)
    ensures var s := "(" + a + " " + op + " " + b + ")";
            s[0] == '(' && s[|s| - 1] == ')'
            && s[1..1 + |a|] == a
            && s[|s| - 1 - |b|..|s| - 1] == b
            && |s| == |a| + |op| + |b| + 4
  {
    var s := "(" + a + " " + op + " " + b + ")";
    var m := a + (" " + op + " ") + b;
    SpacedRegroup(a, op, b);
    assert s[1..|s| - 1] == m;
    assert m[..|a|] == a;
    assert m[|m| - |b|..] == b;
    assert s[1..1 + |a|] == s[1..|s| - 1][..|a|];
    assert s[|s| - 1 - |b|..|s| - 1] == s[1..|s| - 1][|m| - |b|..];
  }

  /** Balanced operands and a parenthesis-free operator give a balanced infix rendering. */
  lemma InfixBalanced(t: Token, l: Expr, op: string, r: Expr)
    requires Renderable(l) && Renderable(r)
    requires Balanced(String(l)) && Balanced(String(r)) && ParenFree(op)
    ensures Balanced(String(Infix(t, l, op, r)))
  {
    SpacedBalanced(String(l), op, String(r));
  }

  /** The text of an infix node, built from balanced operands, is balanced. */
  lemma SpacedBalanced(a: string, op: string, b: string)
    requires Balanced(a) && Balanced(b) && ParenFree(op)
    ensures Balanced("(" + a + " " + op + " " + b + ")")
  {
    var m := " " + op + " ";
    ParenFreeBalanced(m);
    BalancedConcat(a, m);
    BalancedConcat(a + m, b);
    BalancedWrap(a + m + b);
    SpacedRegroup(a, op, b);
  }

  lemma SpacedRegroup(a: string, op: string, b: string)
    ensures "(" + a + " " + op + " " + b + ")" == "(" + (a + (" " + op + " ") + b) + ")"
  {
  }

  /** A prefix rendering is `(`, the operator, the operand with no space, `)`. */
  lemma PrefixShape(t: Token, op: string, r: Expr)
    requires Renderable(r)
    ensures var s := String(Prefix(t, op, r));
            |s| == |op| + |String(r)| + 2
            && s[..1 + |op|] == "(" + op
            && s[1 + |op|..|s| - 1] == String(r) && s[|s| - 1] == ')'
  {
    var b := String(r);
    var s := String(Prefix(t, op, r));
    assert s == "(" + op + b + ")";
    assert s[..1 + |op|] == "(" + op;
    assert s[1 + |op|..|s| - 1] == b;
  }

  lemma PrefixBalanced(t: Token, op: string, r: Expr)
    requires Renderable(r) && Balanced(String(r)) && ParenFree(op)
    ensures Balanced(String(Prefix(t, op, r)))
  {
    ParenFreeBalanced(op);
    BalancedConcat(op, String(r));
    BalancedWrap(op + String(r));
    assert String(Prefix(t, op, r)) == "(" + (op + String(r)) + ")";
  }

  /** An index rendering starts with `(` and ends with `])`, the indexed operand before the index. */
  lemma IndexShape(t: Token, l: Expr, ix: Expr)
    requires Renderable(l) && Renderable(ix)
    ensures var s := String(Index(t, l, ix));
            |s| >= 4 && s[0] == '(' && s[|s| - 2..] == "])"
            && s[1..1 + |String(l)|] == String(l)
            && s[1 + |String(l)|] == '['
            && s[2 + |String(l)|..|s| - 2] == String(ix)
  {
    BracketedShape(String(l), String(ix));
  }

  /** The text of an index node: `(`, the indexed operand, `[`, the index, `])`. */
  lemma BracketedShape(a: string, b: string)
    ensures var s := "(" + a + "[" + b + "])";
            |s| >= 4 && s[0] == '(' && s[|s| - 2..] == "])"
            && s[1..1 + |a|] == a
            && s[1 + |a|] == '['
            && s[2 + |a|..|s| - 2] == b
  {
    var s := "(" + a + "[" + b + "])";
    var m := a + "[" + b + "]";
    BracketedRegroup(a, b);
    assert s[1..|s| - 1] == m;
    assert m[..|a|] == a;
    assert m[|a| + 1..|m| - 1] == b;
    assert s[1..1 + |a|] == s[1..|s| - 1][..|a|];
    assert s[2 + |a|..|s| - 2] == s[1..|s| - 1][|a| + 1..|m| - 1];
  }

  lemma IndexBalanced(t: Token, l: Expr, ix: Expr)
    requires Renderable(l) && Renderable(ix) && Balanced(String(l)) && Balanced(String(ix))
    ensures Balanced(String(Index(t, l, ix)))
  {
    BracketedBalanced(String(l), String(ix));
  }

  /** The text of an index node, built from balanced operands, is balanced. */
  lemma BracketedBalanced(a: string, b: string)
    requires Balanced(a) && Balanced(b)
    ensures Balanced("(" + a + "[" + b + "])")
  {
    ParenFreeBalanced("[");
    ParenFreeBalanced("]");
    BalancedConcat(a, "[");
    BalancedConcat(a + "[", b);
    BalancedConcat(a + "[" + b, "]");
    BalancedWrap(a + "[" + b + "]");
    BracketedRegroup(a, b);
  }

  lemma BracketedRegroup(a: string, b: string)
    ensures "(" + a + "[" + b + "])" == "(" + (a + "[" + b + "]") + ")"
  {
    assert "])" == "]" + ")";
  }

  /** An operator tree: literals, identifiers, prefix, infix and index nodes. */
  predicate OperatorTree(e: Expr)
  {
    match e
    case Ident(id) => ParenFree(id.value)
    case IntegerLiteral(t, _) => ParenFree(t.literal)
    case BooleanLiteral(t, _) => ParenFree(t.literal)
    case Prefix(_, op, r) => ParenFree(op) && OperatorTree(r)
    case Infix(_, l, op, r) => ParenFree(op) && OperatorTree(l) && OperatorTree(r)
    case Index(_, l, ix) => OperatorTree(l) && OperatorTree(ix)
    case _ => false
  }

  /** Every operator tree renders with balanced parentheses. */
  lemma {:induction false} OperatorTreeBalanced(e: Expr)
    requires OperatorTree(e)
    ensures Renderable(e) && Balanced(String(e))
  {
    match e
    case Ident(id) => ParenFreeBalanced(id.value);
    case IntegerLiteral(t, _) => ParenFreeBalanced(t.literal);
    case BooleanLiteral(t, _) => ParenFreeBalanced(t.literal);
    case Prefix(t, op, r) =>
      OperatorTreeBalanced(r);
      PrefixBalanced(t, op, r);
    case Infix(t, l, op, r) =>
      OperatorTreeBalanced(l);
      OperatorTreeBalanced(r);
      InfixBalanced(t, l, op, r);
    case Index(t, l, ix) =>
      OperatorTreeBalanced(l);
      OperatorTreeBalanced(ix);
      IndexBalanced(t, l, ix);
  }

  // ---------------------------------------------------------------------------
  // Lists: ast/array.go, ast/hash.go, ast/function.go

  /** The renderings of a list of expressions, in order. */
  ghost function Strings(es: seq<Expr>): (r: seq<string>)
    requires forall i :: 0 <= i < |es| ==> Renderable(es[i])
    ensures |r| == |es| && forall i :: 0 <= i < |es| ==> r[i] == String(es[i])
  {
    seq(|es|, i requires 0 <= i < |es| => String(es[i]))
  }

  lemma ArrayIsJoin(t: Token, es: seq<Expr>)
    requires Renderable(ArrayLiteral(t, es))
    ensures String(ArrayLiteral(t, es)) == "[" + Text.Join(Strings(es), ", ") + "]"
  {
    assert Strings(es) == seq(|es|, i requires 0 <= i < |es| => String(es[i]));
  }

  /** An empty array literal renders `[]`; one element renders with no separator. */
  lemma ArrayEmptyAndSingle(t: Token, x: Expr)
    requires Renderable(x)
    ensures String(ArrayLiteral(t, [])) == "[]"
    ensures String(ArrayLiteral(t, [x])) == "[" + String(x) + "]"
  {
    ArrayIsJoin(t, []);
    ArrayIsJoin(t, [x]);
  }

  /** Elements keep their order: the renderings of a front run and a back run, separated by `, `. */
  lemma ArrayOrder(t: Token, a: seq<Expr>, b: seq<Expr>)
    requires |a| > 0 && |b| > 0
    requires Renderable(ArrayLiteral(t, a)) && Renderable(ArrayLiteral(t, b))
    ensures Renderable(ArrayLiteral(t, a + b))
    ensures String(ArrayLiteral(t, a + b))
         == "[" + Text.Join(Strings(a), ", ") + ", " + Text.Join(Strings(b), ", ") + "]"
  {
    StringsJoinConcat(a, b);
    ArrayIsJoin(t, a + b);
    Text.Regroup("[", Text.Join(Strings(a), ", "), ", ", Text.Join(Strings(b), ", "), "]");
  }

  lemma StringsJoinConcat(a: seq<Expr>, b: seq<Expr>)
    requires |a| > 0 && |b| > 0
    requires forall i :: 0 <= i < |a| ==> Renderable(a[i])
    requires forall i :: 0 <= i < |b| ==> Renderable(b[i])
    ensures forall i :: 0 <= i < |a + b| ==> Renderable((a + b)[i])
    ensures Text.Join(Strings(a + b), ", ") == Text.Join(Strings(a), ", ") + ", " + Text.Join(Strings(b), ", ")
  {
    StringsConcat(a, b);
    Text.JoinConcat(Strings(a), Strings(b), ", ");
  }

  lemma StringsConcat(a: seq<Expr>, b: seq<Expr>)
    requires forall i :: 0 <= i < |a| ==> Renderable(a[i])
    requires forall i :: 0 <= i < |b| ==> Renderable(b[i])
    ensures forall i :: 0 <= i < |a + b| ==> Renderable((a + b)[i])
    ensures Strings(a + b) == Strings(a) + Strings(b)
  {
  }

  /** An empty hash literal renders `{}`. */
  lemma HashEmpty(t: Token)
    ensures String(HashLiteral(t, [])) == "{}"
  {
    assert Text.Join([], ", ") == "";
  }

  /** A hash literal of one pair renders `{key:value}`, with no space around `:`. */
  lemma HashSingle(t: Token, k: Expr, v: Expr)
    requires Renderable(k) && Renderable(v)
    ensures String(HashLiteral(t, [Pair(k, v)])) == "{" + String(k) + ":" + String(v) + "}"
  {
    var ps := [Pair(k, v)];
    var order := MapOrder(1);
    assert order[0] == 0;
    var parts := seq(1, i requires 0 <= i < 1 => String(ps[order[i]].key) + ":" + String(ps[order[i]].value));
    assert parts == [String(k) + ":" + String(v)];
    assert Text.Join(parts, ", ") == String(k) + ":" + String(v);
  }

  /**
   * A function literal's rendering opens with its keyword and `(`, and ends
   * with `)` directly followed by the body, which gets no braces.
   */
  lemma FunctionShape(t: Token, params: seq<Identifier>, body: Block)
    requires BlockRenderable(body)
    ensures var s, b := String(FunctionLiteral(t, params, body)), BlockString(body);
            t.literal + "(" <= s && |b| + 1 <= |s| && s[|s| - |b| - 1..] == ")" + b
    ensures params == [] ==> String(FunctionLiteral(t, params, body)) == t.literal + "()" + BlockString(body)
  {
    var j, b := Text.Join(IdentifierStrings(params), ", "), BlockString(body);
    var s := String(FunctionLiteral(t, params, body));
    assert s == (t.literal + "(") + j + (")" + b);
    assert s[|s| - |b| - 1..] == ")" + b;
  }

  /** Parameters render in declaration order. */
  lemma FunctionParameterOrder(a: seq<Identifier>, b: seq<Identifier>)
    requires |a| > 0 && |b| > 0
    ensures Text.Join(IdentifierStrings(a + b), ", ")
         == Text.Join(IdentifierStrings(a), ", ") + ", " + Text.Join(IdentifierStrings(b), ", ")
  {
    assert IdentifierStrings(a + b) == IdentifierStrings(a) + IdentifierStrings(b);
    Text.JoinConcat(IdentifierStrings(a), IdentifierStrings(b), ", ");
  }

  // ---------------------------------------------------------------------------
  // Statements: ast/let.go, ast/block.go, ast/expression.go

  /** A let statement always ends in `;`; a nil value leaves nothing between `= ` and `;`. */
  lemma LetShape(t: Token, name: Identifier, v: Expr)
    requires v == Nil || Renderable(v)
    ensures var s := StmtString(Let(t, name, v));
            s[|s| - 1] == ';' && s[..|t.literal| + 1] == t.literal + " "
    ensures v == Nil ==> StmtString(Let(t, name, v)) == t.literal + " " + name.value + " = ;"
  {
  }

  /** An empty block renders as the empty string. */
  lemma BlockEmpty(t: Token)
    ensures BlockString(Block(t, [])) == ""
  {
  }

  /** The renderings of a list of statements, in order. */
  ghost function StmtStrings(ss: seq<Stmt>): (r: seq<string>)
    requires forall i :: 0 <= i < |ss| ==> StmtRenderable(ss[i])
    ensures |r| == |ss| && forall i :: 0 <= i < |ss| ==> r[i] == StmtString(ss[i])
  {
    seq(|ss|, i requires 0 <= i < |ss| => StmtString(ss[i]))
  }

  lemma BlockIsJoin(b: Block)
    requires BlockRenderable(b)
    ensures BlockString(b) == Text.Join(StmtStrings(b.statements), "")
  {
    assert StmtStrings(b.statements) == seq(|b.statements|, i requires 0 <= i < |b.statements| => StmtString(b.statements[i]));
  }

  lemma StmtStringsConcat(s: seq<Stmt>, u: seq<Stmt>)
    requires forall i :: 0 <= i < |s| ==> StmtRenderable(s[i])
    requires forall i :: 0 <= i < |u| ==> StmtRenderable(u[i])
    ensures forall i :: 0 <= i < |s + u| ==> StmtRenderable((s + u)[i])
    ensures StmtStrings(s + u) == StmtStrings(s) + StmtStrings(u)
  {
  }

  /** Rendering distributes over concatenation of statement lists. */
  lemma BlockConcat(t: Token, s: seq<Stmt>, u: seq<Stmt>)
    requires BlockRenderable(Block(t, s)) && BlockRenderable(Block(t, u))
    ensures BlockRenderable(Block(t, s + u))
    ensures BlockString(Block(t, s + u)) == BlockString(Block(t, s)) + BlockString(Block(t, u))
  {
    StmtStringsConcat(s, u);
    Text.ConcatenationJoin(StmtStrings(s), StmtStrings(u));
    BlockIsJoin(Block(t, s));
    BlockIsJoin(Block(t, u));
    BlockIsJoin(Block(t, s + u));
  }

  /**
   * A program of one expression statement renders exactly its expression:
   * no `;` is added back, which is what lets a parse be compared with a
   * parenthesised rendering.
   */
  lemma ExpressionStatementShape(t: Token, x: Expr)
    requires Renderable(x)
    ensures ProgramString(Program([ExpressionStatement(t, x)])) == String(x)
    ensures ProgramString(Program([ExpressionStatement(t, Nil)])) == ""
  {
    assert seq(1, i requires 0 <= i < 1 => StmtString([ExpressionStatement(t, x)][i])) == [String(x)];
    assert seq(1, i requires 0 <= i < 1 => StmtString([ExpressionStatement(t, Nil)][i])) == [""];
  }

  // ---------------------------------------------------------------------------
  // ast/while.go, ast/integer.go, ast/identifier.go

  /**
   * A while rendering opens with `while (` and the condition, and ends with
   * ` )` directly followed by the body; nine characters are added in all.
   */
  lemma WhileShape(t: Token, c: Expr, body: Block)
    requires Renderable(c) && BlockRenderable(body)
    ensures var s, b := String(While(t, c, body)), BlockString(body);
            "while (" + String(c) <= s && |s| == |String(c)| + |b| + 9
            && s[|s| - |b| - 2..] == " )" + b
  {
    var s, b := String(While(t, c, body)), BlockString(body);
    assert s == ("while (" + String(c)) + (" )" + b);
  }

  /**
   * An integer literal renders the spelling of its token, not its value:
   * `0_7`, which denotes 7, renders as `0_7` and not as `7`.
   */
  lemma IntegerLiteralText()
    ensures Strconv.ParseInt("0_7") == Some(7)
    ensures String(IntegerLiteral(Token(INT, "0_7"), 7)) == "0_7" != Text.IntToString(7)
  {
    Strconv.Separators();
    assert Text.IntToString(7) == "7";
  }
}
