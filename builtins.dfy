/**
 * The predeclared functions `len`, `first`, `last`, `rest`, `push` and
 * `puts`. Each checks its argument count, then its argument types, and
 * answers with an Error object carrying a fixed message when either is
 * wrong. `rest` and `push` build a fresh element buffer and never touch
 * the array they were given.
 */
module Builtins {
  import opened Wrappers
  import opened GoInt
  import opened Objects
  import opened Evaluator
  import Text

  /** The builtins table: the names a program can call them by. */
  const BUILTINS: map<string, BuiltinKind> :=
    map["len" := BuiltinLen, "first" := BuiltinFirst, "last" := BuiltinLast,
        "rest" := BuiltinRest, "push" := BuiltinPush, "puts" := BuiltinPuts]

  function WantedOneGot(n: nat): string
  {
    "wrong number of arguments. wanted 1 got " + Text.IntToString(n)
  }

  /** `len`: element count of an Array, UTF-8 byte count of a String. */
  function Len(args: seq<Object>): (r: Object)
    ensures |args| != 1 ==> r == Error("wrong number of arguments. got=" + Text.IntToString(|args|) + ", want=1")
    ensures |args| == 1 && args[0].Array? && |args[0].elements| < TWO_63 ==> r == Integer(|args[0].elements|)
    ensures |args| == 1 && args[0].Str? && |Text.Utf8(args[0].strValue)| < TWO_63
            ==> r == Integer(|Text.Utf8(args[0].strValue)|)
    ensures |args| == 1 && !args[0].Array? && !args[0].Str?
            ==> r == Error("argument to `len` not supported, got " + TypeName(Type(args[0])))
  {
    if |args| != 1 then Error("wrong number of arguments. got=" + Text.IntToString(|args|) + ", want=1")
    else
      match args[0]
      case Array(els) => Integer(Wrap(|els|))
      case Str(s) => Integer(Wrap(|Text.Utf8(s)|))
      case _ => Error("argument to `len` not supported, got " + TypeName(Type(args[0])))
  }

  /** `first`: element 0 of a non-empty array, NULL for an empty one. */
  function First(args: seq<Object>): (r: Object)
    ensures |args| != 1 ==> r == Error(WantedOneGot(|args|))
    ensures |args| == 1 && !args[0].Array? ==> r == Error("arguments to `first` must be ARRAY")
    ensures |args| == 1 && args[0].Array? && |args[0].elements| > 0 ==> r == args[0].elements[0]
    ensures |args| == 1 && args[0] == Array([]) ==> r == NULL
  {
    if |args| != 1 then Error(WantedOneGot(|args|))
    else if Type(args[0]) != ArrayObj then Error("arguments to `first` must be ARRAY")
    else if |args[0].elements| > 0 then args[0].elements[0]
    else NULL
  }

  /** `last`: element n-1 of a non-empty array of n elements, NULL for an empty one. */
  function Last(args: seq<Object>): (r: Object)
    ensures |args| != 1 ==> r == Error(WantedOneGot(|args|))
    ensures |args| == 1 && !args[0].Array? ==> r == Error("arguments to `last` must be ARRAY")
    ensures |args| == 1 && args[0].Array? && |args[0].elements| > 0
            ==> r == args[0].elements[|args[0].elements| - 1]
    ensures |args| == 1 && args[0] == Array([]) ==> r == NULL
  {
    if |args| != 1 then Error(WantedOneGot(|args|))
    else if Type(args[0]) != ArrayObj then Error("arguments to `last` must be ARRAY")
    else
      var length := |args[0].elements|;
      if length > 0 then args[0].elements[length - 1] else NULL
  }

  /** `rest`: a new array of every element but the first; NULL, not `[]`, for an empty array. */
  function Rest(args: seq<Object>): (r: Object)
    ensures |args| != 1 ==> r == Error(WantedOneGot(|args|))
    ensures |args| == 1 && !args[0].Array? ==> r == Error("arguments to `rest` must be ARRAY")
    ensures |args| == 1 && args[0].Array? && |args[0].elements| > 0
            ==> r.Array? && |r.elements| == |args[0].elements| - 1
                && forall i :: 0 <= i < |r.elements| ==> r.elements[i] == args[0].elements[i + 1]
    ensures |args| == 1 && args[0] == Array([]) ==> r == NULL
  {
    if |args| != 1 then Error(WantedOneGot(|args|))
    else if Type(args[0]) != ArrayObj then Error("arguments to `rest` must be ARRAY")
    else
      var length := |args[0].elements|;
      if length > 0 then Array(args[0].elements[1..length]) else NULL
  }

  /** `push`: a new array of the old elements followed by the second argument. */
  function Push(args: seq<Object>): (r: Object)
    ensures |args| != 2 ==> r == Error("wrong number of arguments. wanted 2 got " + Text.IntToString(|args|))
    ensures |args| == 2 && !args[0].Array? ==> r == Error("first argument to `push` must be ARRAY")
    ensures |args| == 2 && args[0].Array?
            ==> r.Array? && |r.elements| == |args[0].elements| + 1
                && r.elements[..|args[0].elements|] == args[0].elements
                && r.elements[|args[0].elements|] == args[1]
  {
    if |args| != 2 then Error("wrong number of arguments. wanted 2 got " + Text.IntToString(|args|))
    else if Type(args[0]) != ArrayObj then Error("first argument to `push` must be ARRAY")
    else Array(args[0].elements + [args[1]])
  }

  /** `puts` prints each argument's inspection on its own line; its result is always NULL. */
  function Puts(args: seq<Object>): (r: Object)
    ensures r == NULL
  {
    NULL
  }

  /** Calling a builtin. */
  function Apply(kind: BuiltinKind, args: seq<Object>): Object
  {
    match kind
    case BuiltinLen => Len(args)
    case BuiltinFirst => First(args)
    case BuiltinLast => Last(args)
    case BuiltinRest => Rest(args)
    case BuiltinPush => Push(args)
    case BuiltinPuts => Puts(args)
  }

  /** `rest` as the source runs it: allocate n-1 slots and copy elements 1..n into them. */
  method RestBuiltin(args: seq<Object>) returns (r: Object)
    ensures r == Rest(args)
  {
    if |args| != 1 {
      return Error(WantedOneGot(|args|));
    }
    if Type(args[0]) != ArrayObj {
      return Error("arguments to `rest` must be ARRAY");
    }
    var elements := args[0].elements;
    var length := |elements|;
    if length > 0 {
      var newElements := new Object[length - 1](_ => Null);
      var i := 0;
      while i < length - 1
        invariant 0 <= i <= length - 1
        invariant newElements[..i] == elements[1..i + 1]
      {
        newElements[i] := elements[i + 1];
        i := i + 1;
      }
      return Array(newElements[..]);
    }
    return NULL;
  }

  /** `push` as the source runs it: allocate n+1 slots, copy the n elements, write the new one last. */
  method PushBuiltin(args: seq<Object>) returns (r: Object)
    ensures r == Push(args)
  {
    if |args| != 2 {
      return Error("wrong number of arguments. wanted 2 got " + Text.IntToString(|args|));
    }
    if Type(args[0]) != ArrayObj {
      return Error("first argument to `push` must be ARRAY");
    }
    var elements := args[0].elements;
    var length := |elements|;
    var newElements := new Object[length + 1](_ => Null);
    var i := 0;
    while i < length
      invariant 0 <= i <= length
      invariant newElements[..i] == elements[..i]
    {
      newElements[i] := elements[i];
      i := i + 1;
    }
    newElements[length] := args[1];
    assert newElements[..] == elements + [args[1]];
    return Array(newElements[..]);
  }

  /** The arity check comes before the type check: two arguments give the count error even for a non-array. */
  lemma ArityBeforeType(x: Object, y: Object)
    requires !x.Array?
    ensures First([x, y]) == Error("wrong number of arguments. wanted 1 got 2")
    ensures Push([x]) == Error("wrong number of arguments. wanted 2 got 1")
  {
  }

  /** `len` of ASCII text counts characters; of `"∑"` (three UTF-8 bytes) it is 3. */
  lemma LenCountsBytes(s: string)
    requires Text.IsAscii(s) && |s| < TWO_63
    ensures Len([Str(s)]) == Integer(|s|)
    ensures Len([Str("∑")]) == Integer(3)
  {
    Text.AsciiByteLength(s);
  }

  /** `push` then `last` gives the pushed value, `push` leaves `first` alone, and `rest` drops the old head. */
  lemma PushThenLast(els: seq<Object>, x: Object, y: Object)
    ensures Last([Push([Array(els), x])]) == x
    ensures |els| > 0 ==> First([Push([Array(els), x])]) == First([Array(els)])
    ensures Rest([Push([Array([y]), x])]) == Array([x])
  {
  }

  /** The `len` calls of the evaluator's tests, applied to already evaluated arguments. */
  lemma LenExamples()
    ensures Len([Str("")]) == Integer(0)
    ensures Len([Str("four")]) == Integer(4)
    ensures Len([Array([Integer(1), Integer(2), Integer(3)])]) == Integer(3)
  {
    Text.AsciiByteLength("four");
  }

  /** The `len` errors of the evaluator's tests. */
  lemma LenErrorExamples()
    ensures Len([Integer(1)]) == Error("argument to `len` not supported, got INTEGER")
    ensures Len([Str("one"), Str("two")]) == Error("wrong number of arguments. got=2, want=1")
  {
    assert Text.IntToString(2) == "2";
  }

  /** The array builtin calls of the evaluator's tests. */
  lemma ArrayBuiltinExamples()
    ensures First([Array([Integer(1), Integer(2), Integer(3)])]) == Integer(1)
    ensures Last([Array([Integer(1), Integer(2), Integer(3)])]) == Integer(3)
    ensures Rest([Array([Integer(1), Integer(2), Integer(3)])]) == Array([Integer(2), Integer(3)])
    ensures Push([Array([Integer(1), Integer(2), Integer(3)]), Integer(1)])
         == Array([Integer(1), Integer(2), Integer(3), Integer(1)])
  {
    assert [Integer(1), Integer(2), Integer(3)][1..3] == [Integer(2), Integer(3)];
  }

  /** The error cases of the evaluator's builtin tests. */
  lemma BuiltinErrorExamples()
    ensures First([]) == Error("wrong number of arguments. wanted 1 got 0")
    ensures First([Str("abc")]) == Error("arguments to `first` must be ARRAY")
    ensures Last([]) == Error("wrong number of arguments. wanted 1 got 0")
    ensures Last([Str("abc")]) == Error("arguments to `last` must be ARRAY")
    ensures Rest([]) == Error("wrong number of arguments. wanted 1 got 0")
    ensures Rest([Str("abc")]) == Error("arguments to `rest` must be ARRAY")
    ensures Push([]) == Error("wrong number of arguments. wanted 2 got 0")
    ensures Push([Str("abc"), Integer(1)]) == Error("first argument to `push` must be ARRAY")
  {
    assert Text.IntToString(0) == "0";
  }
}
