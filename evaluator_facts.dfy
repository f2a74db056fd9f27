/**
 * What the evaluator promises: literal values, truthiness and `!`, int64
 * arithmetic, identity comparison of non-integers, `if`, and how blocks and
 * programs stop at the first return value.
 */
module EvaluatorFacts {
  import opened Wrappers
  import opened GoInt
  import Tokens
  import opened Ast
  import opened Objects
  import opened Evaluator

  // Evaluation never reads a node's token, so the sample trees below share one.
  const T: Tokens.Token := Tokens.Token(Tokens.ILLEGAL, "")

  function Int(n: Int64): Expr { IntegerLiteral(T, n) }
  function Bool(b: bool): Expr { BooleanLiteral(T, b) }
  function Op(l: Expr, op: string, r: Expr): Expr { Infix(T, l, op, r) }
  function Pre(op: string, r: Expr): Expr { Prefix(T, op, r) }
  function Exp(x: Expr): Stmt { ExpressionStatement(T, x) }
  function Ret(x: Expr): Stmt { Return(T, x) }
  function Blk(ss: seq<Stmt>): Block { Block(T, ss) }

  // ---------------------------------------------------------------------------
  // Literals and node kinds

  /** Integer literals give an Integer of the same value; boolean literals give the singletons. */
  lemma LiteralValues(t: Tokens.Token, n: Int64, b: bool)
    ensures EvalExpr(IntegerLiteral(t, n)) == Some(Integer(n))
    ensures EvalExpr(BooleanLiteral(t, b)) == Some(if b then TRUE else FALSE)
  {
  }

  /** Node kinds the evaluator does not handle, and nil, evaluate to nil; a return wraps its value. */
  lemma OtherNodesAreNil(e: Expr, t: Tokens.Token, name: Identifier, v: Expr)
    requires e.Nil? || e.Ident? || e.StringLiteral? || e.FunctionLiteral? || e.Call?
             || e.ArrayLiteral? || e.Index? || e.HashLiteral? || e.While?
    requires SafeExpr(v)
    ensures SafeExpr(e) && EvalExpr(e) == None
    ensures EvalStmt(Let(t, name, v)) == None && EvalStmt(NilLet) == None
    ensures EvalStmt(Return(t, v)) == Some(ReturnValue(EvalExpr(v)))
  {
  }

  // ---------------------------------------------------------------------------
  // Truthiness and `!`

  /** NULL and FALSE are the only falsy objects; 0 and nil are truthy. */
  lemma Truthiness(o: Object)
    ensures IsTruthy(Some(o)) <==> !(o == Null || o == Boolean(false))
    ensures IsTruthy(Some(Integer(0))) && IsTruthy(None)
  {
  }

  /** `!x` is FALSE exactly when x is truthy, for every operand including nil. */
  lemma BangNegatesTruthiness(o: Option<Object>)
    ensures Bang(o) == NativeBool(!IsTruthy(o))
  {
  }

  /** `!true`, `!false`, `!5`, `!!true`, `!!false`, `!!5`. */
  lemma BangExamples()
    ensures EvalExpr(Pre("!", Bool(true))) == Some(FALSE)
    ensures EvalExpr(Pre("!", Bool(false))) == Some(TRUE)
    ensures EvalExpr(Pre("!", Int(5))) == Some(FALSE)
    ensures EvalExpr(Pre("!", Pre("!", Bool(true)))) == Some(TRUE)
    ensures EvalExpr(Pre("!", Pre("!", Bool(false)))) == Some(FALSE)
    ensures EvalExpr(Pre("!", Pre("!", Int(5)))) == Some(TRUE)
  {
  }

  // ---------------------------------------------------------------------------
  // Prefix operators

  /** `-` negates an Integer with int64 wrap-around and gives NULL otherwise; unknown operators give NULL. */
  lemma PrefixSemantics(n: Int64, o: Object, op: string, r: Option<Object>)
    requires op != "!" && op != "-"
    ensures EvalPrefix("-", Some(Integer(n))) == Integer(if n == MIN_INT64 then MIN_INT64 else -n)
    ensures !o.Integer? ==> EvalPrefix("-", Some(o)) == NULL
    ensures EvalPrefix(op, r) == NULL
  {
  }

  // ---------------------------------------------------------------------------
  // Integer infix operators

  /** `+`, `-` and `*` give the mathematical result modulo 2^64, exactly when it fits. */
  lemma IntegerArithmeticWraps(a: Int64, b: Int64)
    ensures var r := EvalInfix("+", Integer(a), Some(Integer(b)));
            r.Integer? && (r.intValue - (a + b)) % TWO_64 == 0
    ensures var r := EvalInfix("-", Integer(a), Some(Integer(b)));
            r.Integer? && (r.intValue - (a - b)) % TWO_64 == 0
    ensures var r := EvalInfix("*", Integer(a), Some(Integer(b)));
            r.Integer? && (r.intValue - a * b) % TWO_64 == 0
    ensures MIN_INT64 <= a + b <= MAX_INT64 ==> EvalInfix("+", Integer(a), Some(Integer(b))) == Integer(a + b)
    ensures MIN_INT64 <= a * b <= MAX_INT64 ==> EvalInfix("*", Integer(a), Some(Integer(b))) == Integer(a * b)
  {
  }

  /** `/` truncates toward zero: the remainder is smaller than the divisor and takes the dividend's sign. */
  lemma IntegerDivisionTruncates(a: Int64, b: Int64)
    requires b != 0 && !(a == MIN_INT64 && b == -1)
    ensures var r := EvalInfix("/", Integer(a), Some(Integer(b)));
            r.Integer? && var rem := a - r.intValue * b;
            Abs(rem) < Abs(b) && (rem == 0 || (rem < 0 <==> a < 0))
  {
    TruncDivRemainder(a, b);
    QuoExact(a, b);
  }

  /** `-7 / 2` is -3, not Dafny's -4; `MinInt64 / -1` wraps to MinInt64. */
  lemma DivisionExamples()
    ensures EvalInfix("/", Integer(-7), Some(Integer(2))) == Integer(-3)
    ensures EvalInfix("/", Integer(MIN_INT64), Some(Integer(-1))) == Integer(MIN_INT64)
  {
    QuoExamples();
    MinDivMinusOneWraps();
  }

  /** Comparisons return the singletons; any other operator on two integers gives NULL. */
  lemma IntegerComparisons(a: Int64, b: Int64, op: string)
    requires op !in {"+", "-", "*", "/", "<", ">", "==", "!="}
    ensures EvalInfix("<", Integer(a), Some(Integer(b))) == NativeBool(a < b)
    ensures EvalInfix(">", Integer(a), Some(Integer(b))) == NativeBool(a > b)
    ensures EvalInfix("==", Integer(a), Some(Integer(b))) == NativeBool(a == b)
    ensures EvalInfix("!=", Integer(a), Some(Integer(b))) == NativeBool(a != b)
    ensures EvalInfix(op, Integer(a), Some(Integer(b))) == NULL
  {
  }

  /** `-5` and `5 + 5 + 5 + 5 - 10`, from the evaluator's tests. */
  lemma SumExample()
    ensures EvalExpr(Pre("-", Int(5))) == Some(Integer(-5))
    ensures EvalExpr(Op(Op(Op(Op(Int(5), "+", Int(5)), "+", Int(5)), "+", Int(5)), "-", Int(10))) == Some(Integer(10))
  {
    var e1 := Op(Int(5), "+", Int(5));
    assert EvalExpr(e1) == Some(Integer(10));
    var e2 := Op(e1, "+", Int(5));
    assert EvalExpr(e2) == Some(Integer(15));
    var e3 := Op(e2, "+", Int(5));
    assert EvalExpr(e3) == Some(Integer(20));
  }

  /** `(2 + 3) * 3` is 15 and `2 + 3 * 3` is 11: the tree, not the text, decides the order. */
  lemma GroupingExample()
    ensures EvalExpr(Op(Op(Int(2), "+", Int(3)), "*", Int(3))) == Some(Integer(15))
    ensures EvalExpr(Op(Int(2), "+", Op(Int(3), "*", Int(3)))) == Some(Integer(11))
  {
    assert EvalExpr(Op(Int(2), "+", Int(3))) == Some(Integer(5));
    assert EvalExpr(Op(Int(3), "*", Int(3))) == Some(Integer(9));
  }

  /** `2 * 2 * 2 * 2 * 2`, from the evaluator's tests. */
  lemma PowerOfTwoExample()
    ensures EvalExpr(Op(Op(Op(Op(Int(2), "*", Int(2)), "*", Int(2)), "*", Int(2)), "*", Int(2))) == Some(Integer(32))
  {
    var e1 := Op(Int(2), "*", Int(2));
    assert EvalExpr(e1) == Some(Integer(4));
    var e2 := Op(e1, "*", Int(2));
    assert EvalExpr(e2) == Some(Integer(8));
    var e3 := Op(e2, "*", Int(2));
    assert EvalExpr(e3) == Some(Integer(16));
  }

  // ---------------------------------------------------------------------------
  // Infix operators on anything else

  /**
   * Unless both operands are Integers, `==` holds exactly for the same Boolean
   * or two NULLs, `!=` is its negation, and every other operator gives NULL.
   */
  lemma NonIntegerInfix(op: string, l: Object, r: Option<Object>)
    requires l.Integer? ==> r.Some?
    requires !(l.Integer? && r.value.Integer?)
    requires op != "==" && op != "!="
    ensures EvalInfix("==", l, r)
         == NativeBool(r.Some? && ((l.Boolean? && r.value.Boolean? && l.boolValue == r.value.boolValue)
                                   || (l == Null && r.value == Null)))
    ensures EvalInfix("!=", l, r) == NativeBool(!(EvalInfix("==", l, r) == TRUE))
    ensures EvalInfix(op, l, r) == NULL
  {
  }

  /** `true == true`, `1 == true` and `(1 < 2) == true`; two equal return values are not identical. */
  lemma IdentityExamples()
    ensures EvalExpr(Op(Bool(true), "==", Bool(true))) == Some(TRUE)
    ensures EvalExpr(Op(Int(1), "==", Bool(true))) == Some(FALSE)
    ensures EvalExpr(Op(Op(Int(1), "<", Int(2)), "==", Bool(true))) == Some(TRUE)
    ensures EvalInfix("==", ReturnValue(Some(TRUE)), Some(ReturnValue(Some(TRUE)))) == FALSE
  {
  }

  // ---------------------------------------------------------------------------
  // if

  /** The consequence runs when the condition is truthy, else the alternative, else the result is NULL. */
  lemma IfSemantics(t: Tokens.Token, c: Expr, cons: Block, alt: Option<Block>)
    requires SafeExpr(If(t, c, cons, alt))
    ensures IsTruthy(EvalExpr(c)) ==> EvalExpr(If(t, c, cons, alt)) == EvalBlock(cons)
    ensures !IsTruthy(EvalExpr(c)) && alt.Some? ==> EvalExpr(If(t, c, cons, alt)) == EvalBlock(alt.value)
    ensures !IsTruthy(EvalExpr(c)) && alt.None? ==> EvalExpr(If(t, c, cons, alt)) == Some(NULL)
  {
  }

  /** The `if` expressions without `else` of the evaluator's tests, on literal conditions. */
  lemma IfExamples()
    ensures EvalExpr(If(T, Bool(true), Blk([Exp(Int(10))]), None)) == Some(Integer(10))
    ensures EvalExpr(If(T, Bool(false), Blk([Exp(Int(10))]), None)) == Some(NULL)
    ensures EvalExpr(If(T, Int(1), Blk([Exp(Int(10))]), None)) == Some(Integer(10))
  {
    TenBlock();
  }

  /** The `if` expressions without `else` of the evaluator's tests, on comparisons. */
  lemma IfComparisonExamples()
    ensures EvalExpr(If(T, Op(Int(1), "<", Int(2)), Blk([Exp(Int(10))]), None)) == Some(Integer(10))
    ensures EvalExpr(If(T, Op(Int(1), ">", Int(2)), Blk([Exp(Int(10))]), None)) == Some(NULL)
  {
    TenBlock();
    Comparisons();
  }

  /** The `if`/`else` expressions of the evaluator's tests. */
  lemma IfElseExamples()
    ensures EvalExpr(If(T, Op(Int(1), ">", Int(2)), Blk([Exp(Int(10))]), Some(Blk([Exp(Int(20))])))) == Some(Integer(20))
    ensures EvalExpr(If(T, Op(Int(1), "<", Int(2)), Blk([Exp(Int(10))]), Some(Blk([Exp(Int(20))])))) == Some(Integer(10))
  {
    TenBlock();
    TwentyBlock();
    Comparisons();
  }

  lemma Comparisons()
    ensures SafeExpr(Op(Int(1), "<", Int(2))) && EvalExpr(Op(Int(1), "<", Int(2))) == Some(TRUE)
    ensures SafeExpr(Op(Int(1), ">", Int(2))) && EvalExpr(Op(Int(1), ">", Int(2))) == Some(FALSE)
  {
  }

  lemma TwentyBlock()
    ensures SafeBlock(Blk([Exp(Int(20))])) && EvalBlock(Blk([Exp(Int(20))])) == Some(Integer(20))
  {
  }

  lemma TenBlock()
    ensures SafeBlock(Blk([Exp(Int(10))])) && EvalBlock(Blk([Exp(Int(10))])) == Some(Integer(10))
  {
  }

  // ---------------------------------------------------------------------------
  // Blocks and programs

  /** A block's result is the first return value, still wrapped; later statements are not run. */
  lemma {:induction false} BlockStopsAtFirstReturn(b: Block, i: nat)
    requires i < |b.statements|
    requires forall j :: 0 <= j <= i ==> SafeStmt(b.statements[j])
    requires forall j :: 0 <= j < i ==> !IsReturn(EvalStmt(b.statements[j]))
    requires IsReturn(EvalStmt(b.statements[i]))
    ensures SafeBlock(b) && EvalBlock(b) == EvalStmt(b.statements[i])
  {
    BlockPrefixSafe(b, i, 0);
  }

  lemma {:induction false} BlockPrefixSafe(b: Block, i: nat, k: nat)
    requires k <= i < |b.statements|
    requires forall j :: 0 <= j <= i ==> SafeStmt(b.statements[j])
    requires forall j :: 0 <= j < i ==> !IsReturn(EvalStmt(b.statements[j]))
    requires IsReturn(EvalStmt(b.statements[i]))
    ensures SafeBlockFrom(b, k) && EvalBlockFrom(b, k) == EvalStmt(b.statements[i])
    decreases i - k
  {
    if k < i {
      BlockPrefixSafe(b, i, k + 1);
    }
  }

  /** Without a return value, a block's result is its last statement's, or nil when it is empty. */
  lemma {:induction false} BlockWithoutReturn(b: Block, k: nat)
    requires k <= |b.statements|
    requires forall j :: 0 <= j < |b.statements| ==> SafeStmt(b.statements[j])
    requires forall j :: 0 <= j < |b.statements| ==> !IsReturn(EvalStmt(b.statements[j]))
    ensures SafeBlockFrom(b, k)
    ensures EvalBlockFrom(b, k) == if k == |b.statements| then None else EvalStmt(b.statements[|b.statements| - 1])
    decreases |b.statements| - k
  {
    if k < |b.statements| {
      BlockWithoutReturn(b, k + 1);
    }
  }

  /** A program's result is the value inside the first return value; later statements are not run. */
  lemma {:induction false} ProgramStopsAtFirstReturn(p: Program, i: nat, k: nat)
    requires k <= i < |p.statements|
    requires forall j :: 0 <= j <= i ==> SafeStmt(p.statements[j])
    requires forall j :: 0 <= j < i ==> !IsReturn(EvalStmt(p.statements[j]))
    requires IsReturn(EvalStmt(p.statements[i]))
    ensures SafeProgramFrom(p, k) && EvalProgramFrom(p, k) == EvalStmt(p.statements[i]).value.returned
    decreases i - k
  {
    if k < i {
      ProgramStopsAtFirstReturn(p, i, k + 1);
    }
  }

  /** Without a return value, a program's result is its last statement's, or nil when it is empty. */
  lemma {:induction false} ProgramWithoutReturn(p: Program, k: nat)
    requires k <= |p.statements|
    requires forall j :: 0 <= j < |p.statements| ==> SafeStmt(p.statements[j])
    requires forall j :: 0 <= j < |p.statements| ==> !IsReturn(EvalStmt(p.statements[j]))
    ensures SafeProgramFrom(p, k)
    ensures EvalProgramFrom(p, k) == if k == |p.statements| then None else EvalStmt(p.statements[|p.statements| - 1])
    decreases |p.statements| - k
  {
    if k < |p.statements| {
      ProgramWithoutReturn(p, k + 1);
    }
  }

  /** The return statements of the evaluator's tests that return first. */
  lemma ReturnExamples()
    ensures EvalProgram(Program([Ret(Int(10))])) == Some(Integer(10))
    ensures EvalProgram(Program([Ret(Int(10)), Exp(Int(9))])) == Some(Integer(10))
  {
    assert EvalStmt(Ret(Int(10))) == Some(ReturnValue(Some(Integer(10))));
    ProgramStopsAtFirstReturn(Program([Ret(Int(10))]), 0, 0);
    ProgramStopsAtFirstReturn(Program([Ret(Int(10)), Exp(Int(9))]), 0, 0);
  }

  /** The return statements of the evaluator's tests whose value is computed. */
  lemma ComputedReturnExamples()
    ensures EvalProgram(Program([Ret(Op(Int(2), "*", Int(5))), Exp(Int(9))])) == Some(Integer(10))
    ensures EvalProgram(Program([Exp(Int(9)), Ret(Op(Int(2), "*", Int(9))), Exp(Int(9))])) == Some(Integer(18))
  {
    assert EvalStmt(Ret(Op(Int(2), "*", Int(5)))) == Some(ReturnValue(Some(Integer(10))));
    assert EvalStmt(Ret(Op(Int(2), "*", Int(9)))) == Some(ReturnValue(Some(Integer(18))));
    assert !IsReturn(EvalStmt(Exp(Int(9))));
    ProgramStopsAtFirstReturn(Program([Ret(Op(Int(2), "*", Int(5))), Exp(Int(9))]), 0, 0);
    ProgramStopsAtFirstReturn(Program([Exp(Int(9)), Ret(Op(Int(2), "*", Int(9))), Exp(Int(9))]), 1, 0);
  }

  /** A return inside nested blocks leaves every enclosing block and is unwrapped once, by the program. */
  lemma NestedReturnExample()
    ensures var inner := If(T, Op(Int(10), ">", Int(1)), Blk([Ret(Int(10))]), None);
            var outer := If(T, Op(Int(10), ">", Int(1)), Blk([Exp(inner), Ret(Int(1))]), None);
            SafeProgram(Program([Exp(outer)]))
            && EvalExpr(outer) == Some(ReturnValue(Some(Integer(10))))
            && EvalProgram(Program([Exp(outer)])) == Some(Integer(10))
  {
    InnerReturn();
    BlockStopsAtFirstReturn(Blk([Exp(If(T, Op(Int(10), ">", Int(1)), Blk([Ret(Int(10))]), None)), Ret(Int(1))]), 0);
  }

  /** The inner `if` of the nested example: its block returns, and the `if` passes the return value on. */
  lemma InnerReturn()
    ensures var inner := If(T, Op(Int(10), ">", Int(1)), Blk([Ret(Int(10))]), None);
            SafeExpr(inner) && EvalExpr(inner) == Some(ReturnValue(Some(Integer(10))))
  {
    assert SafeExpr(Op(Int(10), ">", Int(1))) && EvalExpr(Op(Int(10), ">", Int(1))) == Some(TRUE);
    assert SafeBlock(Blk([Ret(Int(10))])) && EvalBlock(Blk([Ret(Int(10))])) == Some(ReturnValue(Some(Integer(10))));
  }
}
