/**
 * The abstract syntax tree and its two views: `TokenLiteral`, the literal of
 * the token a node was built from, and `String`, the fully parenthesised
 * rendering that the parser's precedence tests compare against.
 *
 * A Go `ast.Expression` may be nil: a handler that failed returns nil and
 * the caller stores it. `Nil` is that value. A failed `let` leaves a typed
 * nil `*LetStatement` in the program; `NilLet` is that statement. Calling
 * `String()` or `TokenLiteral()` on either dereferences nil, so the
 * renderers require trees in which nil is only where the Go code tests for it.
 */
module Ast {
  import opened Wrappers
  import opened GoInt
  import opened Tokens
  import Text

  datatype Identifier = Identifier(token: Token, value: string)

  datatype Expr =
    | Nil
    | Ident(id: Identifier)
    | IntegerLiteral(token: Token, value: Int64)
    | StringLiteral(token: Token, text: string)
    | BooleanLiteral(token: Token, truth: bool)
    | Prefix(token: Token, operator: string, right: Expr)
    | Infix(token: Token, left: Expr, operator: string, right: Expr)
    | If(token: Token, condition: Expr, consequence: Block, alternative: Option<Block>)
    | FunctionLiteral(token: Token, parameters: seq<Identifier>, body: Block)
    | Call(token: Token, callee: Expr, arguments: seq<Expr>)
    | ArrayLiteral(token: Token, elements: seq<Expr>)
    | Index(token: Token, left: Expr, index: Expr)
    | HashLiteral(token: Token, pairs: seq<Pair>)
    | While(token: Token, condition: Expr, body: Block)

  /** One `key: value` entry of a hash literal, keyed by the key node itself. */
  datatype Pair = Pair(key: Expr, value: Expr)

  datatype Stmt =
    | Let(token: Token, name: Identifier, value: Expr)
    | NilLet
    | Return(token: Token, returnValue: Expr)
    | ExpressionStatement(token: Token, expression: Expr)

  datatype Block = Block(token: Token, statements: seq<Stmt>)

  datatype Program = Program(statements: seq<Stmt>)

  // ---------------------------------------------------------------------------
  // Where nil may stand

  /** `String()` can be called: nil only where the renderer tests for it. */
  predicate Renderable(e: Expr)
  {
    match e
    case Nil => false
    case Ident(_) => true
    case IntegerLiteral(_, _) => true
    case StringLiteral(_, _) => true
    case BooleanLiteral(_, _) => true
    case Prefix(_, _, r) => Renderable(r)
    case Infix(_, l, _, r) => Renderable(l) && Renderable(r)
    case If(_, c, cons, alt) =>
      Renderable(c) && BlockRenderable(cons) && (alt.Some? ==> BlockRenderable(alt.value))
    case FunctionLiteral(_, _, body) => BlockRenderable(body)
    case Call(_, f, args) => Renderable(f) && forall i :: 0 <= i < |args| ==> Renderable(args[i])
    case ArrayLiteral(_, els) => forall i :: 0 <= i < |els| ==> Renderable(els[i])
    case Index(_, l, ix) => Renderable(l) && Renderable(ix)
    case HashLiteral(_, ps) =>
      forall i :: 0 <= i < |ps| ==> Renderable(ps[i].key) && Renderable(ps[i].value)
    case While(_, c, body) => Renderable(c) && BlockRenderable(body)
  }

  predicate StmtRenderable(s: Stmt)
  {
    match s
    case Let(_, _, v) => v == Nil || Renderable(v)
    case NilLet => false
    case Return(_, v) => v == Nil || Renderable(v)
    case ExpressionStatement(_, x) => x == Nil || Renderable(x)
  }

  predicate BlockRenderable(b: Block)
  {
    forall i :: 0 <= i < |b.statements| ==> StmtRenderable(b.statements[i])
  }

  /** No nil anywhere: what a parse that reported no error produces. */
  predicate Complete(e: Expr)
  {
    match e
    case Nil => false
    case Ident(_) => true
    case IntegerLiteral(_, _) => true
    case StringLiteral(_, _) => true
    case BooleanLiteral(_, _) => true
    case Prefix(_, _, r) => Complete(r)
    case Infix(_, l, _, r) => Complete(l) && Complete(r)
    case If(_, c, cons, alt) =>
      Complete(c) && BlockComplete(cons) && (alt.Some? ==> BlockComplete(alt.value))
    case FunctionLiteral(_, _, body) => BlockComplete(body)
    case Call(_, f, args) => Complete(f) && forall i :: 0 <= i < |args| ==> Complete(args[i])
    case ArrayLiteral(_, els) => forall i :: 0 <= i < |els| ==> Complete(els[i])
    case Index(_, l, ix) => Complete(l) && Complete(ix)
    case HashLiteral(_, ps) =>
      forall i :: 0 <= i < |ps| ==> Complete(ps[i].key) && Complete(ps[i].value)
    case While(_, c, body) => Complete(c) && BlockComplete(body)
  }

  predicate StmtComplete(s: Stmt)
  {
    match s
    case Let(_, _, v) => Complete(v)
    case NilLet => false
    case Return(_, v) => Complete(v)
    case ExpressionStatement(_, x) => Complete(x)
  }

  predicate BlockComplete(b: Block)
  {
    forall i :: 0 <= i < |b.statements| ==> StmtComplete(b.statements[i])
  }

  predicate ProgramComplete(p: Program)
  {
    forall i :: 0 <= i < |p.statements| ==> StmtComplete(p.statements[i])
  }

  /** A tree without nil can always be rendered. */
  lemma {:induction false} CompleteIsRenderable(e: Expr)
    requires Complete(e)
    ensures Renderable(e)
    decreases e, 0
  {
    match e
    case Nil =>
    case Ident(_) =>
    case IntegerLiteral(_, _) =>
    case StringLiteral(_, _) =>
    case BooleanLiteral(_, _) =>
    case Prefix(_, _, r) => CompleteIsRenderable(r);
    case Infix(_, l, _, r) => CompleteIsRenderable(l); CompleteIsRenderable(r);
    case If(_, c, cons, alt) =>
      CompleteIsRenderable(c);
      BlockCompleteIsRenderable(cons);
      if alt.Some? { BlockCompleteIsRenderable(alt.value); }
    case FunctionLiteral(_, _, body) => BlockCompleteIsRenderable(body);
    case Call(_, f, args) =>
      CompleteIsRenderable(f);
      forall i | 0 <= i < |args| ensures Renderable(args[i]) { CompleteIsRenderable(args[i]); }
    case ArrayLiteral(_, els) =>
      forall i | 0 <= i < |els| ensures Renderable(els[i]) { CompleteIsRenderable(els[i]); }
    case Index(_, l, ix) => CompleteIsRenderable(l); CompleteIsRenderable(ix);
    case HashLiteral(_, ps) =>
      forall i | 0 <= i < |ps| ensures Renderable(ps[i].key) && Renderable(ps[i].value) {
        CompleteIsRenderable(ps[i].key);
        CompleteIsRenderable(ps[i].value);
      }
    case While(_, c, body) => CompleteIsRenderable(c); BlockCompleteIsRenderable(body);
  }

  lemma {:induction false} BlockCompleteIsRenderable(b: Block)
    requires BlockComplete(b)
    ensures BlockRenderable(b)
    decreases b, 1
  {
    forall i | 0 <= i < |b.statements| ensures StmtRenderable(b.statements[i]) {
      var s := b.statements[i];
      match s
      case Let(_, _, v) => CompleteIsRenderable(v);
      case NilLet =>
      case Return(_, v) => CompleteIsRenderable(v);
      case ExpressionStatement(_, x) => CompleteIsRenderable(x);
    }
  }

  // ---------------------------------------------------------------------------
  // TokenLiteral

  /** `TokenLiteral()` of an expression: the literal of the token it was built from. */
  function TokenLiteral(e: Expr): string
    requires e != Nil
  {
    if e.Ident? then e.id.token.literal else e.token.literal
  }

  function StmtTokenLiteral(s: Stmt): string
    requires s != NilLet
  {
    s.token.literal
  }

  // ---------------------------------------------------------------------------
  // String

  /** `Identifier.String()`: the identifier's value. */
  function IdentifierString(id: Identifier): string
  {
    id.value
  }

  /** order lists each index below n exactly once. */
  predicate IsOrder(order: seq<nat>, n: nat)
  {
    |order| == n
    && (forall i :: 0 <= i < n ==> order[i] < n)
    && (forall i, j :: 0 <= i < j < n ==> order[i] != order[j])
  }

  function InOrder(n: nat): (order: seq<nat>)
    ensures IsOrder(order, n)
  {
    seq(n, i requires 0 <= i < n => i)
  }

  /** The order a Go map of n entries is iterated in: some order, not a particular one. */
  ghost function MapOrder(n: nat): (order: seq<nat>)
    ensures IsOrder(order, n)
  {
    assert IsOrder(InOrder(n), n);
    var order :| IsOrder(order, n); order
  }

  /**
   * `String()` of an expression. A hash literal keeps its pairs in a Go map
   * and renders them in map iteration order, which is unspecified: the
   * rendering lists them in some order, and nothing below depends on which.
   * The `if` and call forms are Monkey's conventional ones.
   */
  ghost function String(e: Expr): string
    requires Renderable(e)
  {
    match e
    case Ident(id) => IdentifierString(id)
    case IntegerLiteral(t, _) => t.literal
    case StringLiteral(t, _) => t.literal
    case BooleanLiteral(t, _) => t.literal
    case Prefix(_, op, r) => "(" + op + String(r) + ")"
    case Infix(_, l, op, r) => "(" + String(l) + " " + op + " " + String(r) + ")"
    case If(_, c, cons, alt) =>
      "if" + String(c) + " " + BlockString(cons)
      + (if alt.Some? then "else " + BlockString(alt.value) else "")
    case FunctionLiteral(t, params, body) =>
      t.literal + "(" + Text.Join(IdentifierStrings(params), ", ") + ")" + BlockString(body)
    case Call(_, f, args) =>
      String(f) + "(" + Text.Join(seq(|args|, i requires 0 <= i < |args| => String(args[i])), ", ") + ")"
    case ArrayLiteral(_, els) =>
      "[" + Text.Join(seq(|els|, i requires 0 <= i < |els| => String(els[i])), ", ") + "]"
    case Index(_, l, ix) => "(" + String(l) + "[" + String(ix) + "])"
    case HashLiteral(_, ps) =>
      var order := MapOrder(|ps|);
      "{" + Text.Join(seq(|ps|, i requires 0 <= i < |ps| => String(ps[order[i]].key) + ":" + String(ps[order[i]].value)), ", ") + "}"
    case While(_, c, body) => "while" + " (" + String(c) + " )" + BlockString(body)
  }

  function IdentifierStrings(ids: seq<Identifier>): (r: seq<string>)
    ensures |r| == |ids| && forall i :: 0 <= i < |ids| ==> r[i] == ids[i].value
  {
    seq(|ids|, i requires 0 <= i < |ids| => IdentifierString(ids[i]))
  }

  /** `String()` of a statement; the `return` form is Monkey's conventional one. */
  ghost function StmtString(s: Stmt): string
    requires StmtRenderable(s)
  {
    match s
    case Let(t, name, v) =>
      t.literal + " " + IdentifierString(name) + " = " + (if v == Nil then "" else String(v)) + ";"
    case Return(t, v) => t.literal + " " + (if v == Nil then "" else String(v)) + ";"
    case ExpressionStatement(_, x) => if x == Nil then "" else String(x)
  }

  /** `BlockStatement.String()`: the statements' strings, back to back. */
  ghost function BlockString(b: Block): string
    requires BlockRenderable(b)
  {
    StmtsString(b.statements)
  }

  ghost function StmtsString(ss: seq<Stmt>): string
    requires forall i :: 0 <= i < |ss| ==> StmtRenderable(ss[i])
  {
    Text.Join(seq(|ss|, i requires 0 <= i < |ss| => StmtString(ss[i])), "")
  }

  /** `Program.String()`: the statements' strings, back to back. */
  ghost function ProgramString(p: Program): string
    requires forall i :: 0 <= i < |p.statements| ==> StmtRenderable(p.statements[i])
  {
    StmtsString(p.statements)
  }
}
