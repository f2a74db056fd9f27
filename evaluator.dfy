/**
 * The tree-walking evaluator. It knows integer and boolean literals, prefix
 * and infix operators, `if`, blocks and `return`; every other node
 * evaluates to nil (`None`). Unsupported operators and operand types give
 * NULL rather than an error.
 *
 * TRUE, FALSE and NULL are shared singletons, so Go's pointer comparison of
 * objects holds exactly for equal Booleans and for two NULLs; integers and
 * return values are fresh allocations and never identical to anything else.
 *
 * Go panics when it calls `Type()` on a nil operand or divides by zero.
 * `SafeExpr` and friends say that evaluation never reaches such a point;
 * every evaluation function requires them.
 */
module Evaluator {
  import opened Wrappers
  import opened GoInt
  import opened Ast
  import opened Objects

  const NULL: Object := Null
  const TRUE: Object := Boolean(true)
  const FALSE: Object := Boolean(false)

  /** `nativeBoolToBooleanObject`: the TRUE or FALSE singleton. */
  function NativeBool(b: bool): (r: Object)
    ensures r == TRUE <==> b
    ensures r == FALSE <==> !b
  {
    if b then TRUE else FALSE
  }

  /** `isTruthy`: NULL and FALSE are falsy; everything else, nil included, is truthy. */
  predicate IsTruthy(o: Option<Object>)
    ensures IsTruthy(o) <==> o != Some(NULL) && o != Some(FALSE)
  {
    if o == Some(NULL) then false
    else if o == Some(TRUE) then true
    else if o == Some(FALSE) then false
    else true
  }

  /** `evaluateBangOperatorExpression`. */
  function Bang(right: Option<Object>): (r: Object)
    ensures r == NativeBool(!IsTruthy(right))
  {
    if right == Some(TRUE) then FALSE
    else if right == Some(FALSE) then TRUE
    else if right == Some(NULL) then TRUE
    else FALSE
  }

  /** `evaluateNegationOperatorExpression`: integer negation with int64 wrap, NULL otherwise. */
  function Negation(right: Object): (r: Object)
    ensures right.Integer? ==> r == Integer(Neg(right.intValue))
    ensures !right.Integer? ==> r == NULL
  {
    if Type(right) != IntegerObj then NULL else Integer(Neg(right.intValue))
  }

  /** `evaluatePrefixExpression`. */
  function EvalPrefix(op: string, right: Option<Object>): (r: Object)
    requires op == "-" ==> right.Some?
    ensures op == "!" ==> r == NativeBool(!IsTruthy(right))
    ensures op == "-" && right.value.Integer? ==> r == Integer(Neg(right.value.intValue))
    ensures op != "!" && !(op == "-" && right.value.Integer?) ==> r == NULL
  {
    if op == "!" then Bang(right)
    else if op == "-" then Negation(right.value)
    else NULL
  }

  /** `evaluateIntegerInfixExpression` on the two int64 values. */
  function EvalIntegerInfix(op: string, a: Int64, b: Int64): (r: Object)
    requires op == "/" ==> b != 0
    ensures r.Integer? <==> op == "+" || op == "-" || op == "*" || op == "/"
    ensures r.Boolean? <==> op == "<" || op == ">" || op == "==" || op == "!="
    ensures r.Integer? || r.Boolean? || r == NULL
    ensures op == "!=" ==> r == NativeBool(!(a == b))
  {
    if op == "+" then Integer(Add(a, b))
    else if op == "-" then Integer(Sub(a, b))
    else if op == "*" then Integer(Mul(a, b))
    else if op == "/" then Integer(Quo(a, b))
    else if op == "<" then NativeBool(a < b)
    else if op == ">" then NativeBool(a > b)
    else if op == "==" then NativeBool(a == b)
    else if op == "!=" then NativeBool(a != b)
    else NULL
  }

  /** Go's `left == right` on two evaluator objects: both the same Boolean singleton, or both NULL. */
  predicate Identical(left: Object, right: Option<Object>)
  {
    right.Some? && ((left.Boolean? && right.value == left) || (left.Null? && right.value.Null?))
  }

  /** `evaluateInfixExpression`: the left operand is never nil; the right may be nil unless the left is an Integer. */
  function EvalInfix(op: string, left: Object, right: Option<Object>): (r: Object)
    requires left.Integer? ==> right.Some?
    requires left.Integer? && right.value.Integer? && op == "/" ==> right.value.intValue != 0
    ensures !(left.Integer? && right.value.Integer?) && op != "==" && op != "!=" ==> r == NULL
    ensures left.Integer? && !right.value.Integer? ==> (op == "==" ==> r == FALSE) && (op == "!=" ==> r == TRUE)
    ensures op == "==" ==> r.Boolean?
  {
    if Type(left) == IntegerObj && Type(right.value) == IntegerObj then
      EvalIntegerInfix(op, left.intValue, right.value.intValue)
    else if op == "==" then NativeBool(Identical(left, right))
    else if op == "!=" then NativeBool(!Identical(left, right))
    else NULL
  }

  /** A result that stops a block or a program: a ReturnValue. */
  predicate IsReturn(r: Option<Object>)
  {
    r.Some? && Type(r.value) == ReturnObj
  }

  // ---------------------------------------------------------------------------
  // Where evaluation does not panic

  predicate SafeExpr(e: Expr)
    decreases e, 0, 0
  {
    match e
    case Prefix(_, op, r) => SafeExpr(r) && (op == "-" ==> EvalExpr(r).Some?)
    case Infix(_, l, op, r) =>
      SafeExpr(l) && SafeExpr(r) && EvalExpr(l).Some?
      && (EvalExpr(l).value.Integer? ==> EvalExpr(r).Some?)
      && (EvalExpr(l).value.Integer? && EvalExpr(r).value.Integer? && op == "/" ==> EvalExpr(r).value.intValue != 0)
    case If(_, c, cons, alt) =>
      SafeExpr(c)
      && (IsTruthy(EvalExpr(c)) ==> SafeBlock(cons))
      && (!IsTruthy(EvalExpr(c)) && alt.Some? ==> SafeBlock(alt.value))
    case _ => true
  }

  predicate SafeStmt(s: Stmt)
    decreases s, 0, 0
  {
    match s
    case ExpressionStatement(_, x) => SafeExpr(x)
    case Return(_, v) => SafeExpr(v)
    case _ => true
  }

  /** Statements from index i run without panicking, up to the first return. */
  predicate SafeBlockFrom(b: Block, i: nat)
    requires i <= |b.statements|
    decreases b, 0, |b.statements| - i
  {
    i == |b.statements|
    || (SafeStmt(b.statements[i])
        && (IsReturn(EvalStmt(b.statements[i])) || SafeBlockFrom(b, i + 1)))
  }

  predicate SafeBlock(b: Block)
    decreases b, 2, 0
  {
    SafeBlockFrom(b, 0)
  }

  // ---------------------------------------------------------------------------
  // Eval

  /** `Eval` of an expression node; nil for node kinds it does not handle. */
  function EvalExpr(e: Expr): Option<Object>
    requires SafeExpr(e)
    decreases e, 1, 0
  {
    match e
    case IntegerLiteral(_, v) => Some(Integer(v))
    case BooleanLiteral(_, b) => Some(NativeBool(b))
    case Prefix(_, op, r) => Some(EvalPrefix(op, EvalExpr(r)))
    case Infix(_, l, op, r) => Some(EvalInfix(op, EvalExpr(l).value, EvalExpr(r)))
    case If(_, c, cons, alt) =>
      if IsTruthy(EvalExpr(c)) then EvalBlock(cons)
      else if alt.Some? then EvalBlock(alt.value)
      else Some(NULL)
    case _ => None
  }

  /** `Eval` of a statement: a return wraps its value in a fresh ReturnValue; a let gives nil. */
  function EvalStmt(s: Stmt): Option<Object>
    requires SafeStmt(s)
    decreases s, 1, 0
  {
    match s
    case ExpressionStatement(_, x) => EvalExpr(x)
    case Return(_, v) => Some(ReturnValue(EvalExpr(v)))
    case _ => None
  }

  /** The result of running a block's statements from index i. */
  function EvalBlockFrom(b: Block, i: nat): Option<Object>
    requires i <= |b.statements| && SafeBlockFrom(b, i)
    decreases b, 1, |b.statements| - i
  {
    if i == |b.statements| then None
    else
      var r := EvalStmt(b.statements[i]);
      if IsReturn(r) || i == |b.statements| - 1 then r else EvalBlockFrom(b, i + 1)
  }

  /** What `evaluateBlockStatement` computes. */
  function EvalBlock(b: Block): Option<Object>
    requires SafeBlock(b)
    decreases b, 3, 0
  {
    EvalBlockFrom(b, 0)
  }

  // ---------------------------------------------------------------------------
  // Programs

  predicate SafeProgramFrom(p: Program, i: nat)
    requires i <= |p.statements|
    decreases |p.statements| - i
  {
    i == |p.statements|
    || (SafeStmt(p.statements[i])
        && (IsReturn(EvalStmt(p.statements[i])) || SafeProgramFrom(p, i + 1)))
  }

  predicate SafeProgram(p: Program)
  {
    SafeProgramFrom(p, 0)
  }

  /** The result of running a program's statements from index i; a return is unwrapped once. */
  function EvalProgramFrom(p: Program, i: nat): Option<Object>
    requires i <= |p.statements| && SafeProgramFrom(p, i)
    decreases |p.statements| - i
  {
    if i == |p.statements| then None
    else
      var r := EvalStmt(p.statements[i]);
      if IsReturn(r) then r.value.returned
      else if i == |p.statements| - 1 then r
      else EvalProgramFrom(p, i + 1)
  }

  /** What `evaluateProgram` computes. */
  function EvalProgram(p: Program): Option<Object>
    requires SafeProgram(p)
  {
    EvalProgramFrom(p, 0)
  }

  /** `evaluateBlockStatement`: run the statements in order, stopping at the first return value. */
  method EvaluateBlockStatement(b: Block) returns (result: Option<Object>)
    requires SafeBlock(b)
    ensures result == EvalBlock(b)
  {
    result := None;
    var i := 0;
    while i < |b.statements|
      invariant 0 <= i <= |b.statements|
      invariant SafeBlockFrom(b, i)
      invariant i < |b.statements| ==> EvalBlockFrom(b, 0) == EvalBlockFrom(b, i)
      invariant i == |b.statements| ==> EvalBlockFrom(b, 0) == result
    {
      result := EvalStmt(b.statements[i]);
      if result.Some? && Type(result.value) == ReturnObj {
        return;
      }
      i := i + 1;
    }
  }

  /** `evaluateProgram`: like a block, but the first return value is unwrapped. */
  method EvaluateProgram(p: Program) returns (result: Option<Object>)
    requires SafeProgram(p)
    ensures result == EvalProgram(p)
  {
    result := None;
    var i := 0;
    while i < |p.statements|
      invariant 0 <= i <= |p.statements|
      invariant SafeProgramFrom(p, i)
      invariant i < |p.statements| ==> EvalProgramFrom(p, 0) == EvalProgramFrom(p, i)
      invariant i == |p.statements| ==> EvalProgramFrom(p, 0) == result
    {
      result := EvalStmt(p.statements[i]);
      if result.Some? && result.value.ReturnValue? {
        result := result.value.returned;
        return;
      }
      i := i + 1;
    }
  }
}
