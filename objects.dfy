/**
 * Runtime values and the environment that binds names to them.
 *
 * A Go `object.Object` is an interface; each concrete type is a constructor
 * of `Object` here. A nil `Object` is `None` of an `Option<Object>` wherever
 * the Go code can hold or pass one.
 */
module Objects {
  import opened Wrappers
  import opened GoInt
  import opened Ast
  import Text
  import Strconv

  /** Type tags. Go writes them as strings; `TypeName` gives the text. */
  datatype ObjectType =
    | IntegerObj | BooleanObj | NullObj | StringObj | ArrayObj | HashObj
    | FunctionObj | BuiltInObj | ReturnObj | ErrorObj

  /**
   * The printed name of a tag, as it appears in error messages. BOOLEAN,
   * INTEGER and NULL are declared in object/object.go and ARRAY is spelled
   * in the builtins' messages; the other six are Monkey's conventional names.
   */
  function TypeName(t: ObjectType): string
  {
    match t
    case IntegerObj => "INTEGER"
    case BooleanObj => "BOOLEAN"
    case NullObj => "NULL"
    case StringObj => "STRING"
    case ArrayObj => "ARRAY"
    case HashObj => "HASH"
    case FunctionObj => "FUNCTION"
    case BuiltInObj => "BUILTIN"
    case ReturnObj => "RETURN_VALUE"
    case ErrorObj => "ERROR"
  }

  /** Comparing tag names is comparing tags: no two tags share a name. */
  lemma TypeNameInjective(s: ObjectType, t: ObjectType)
    ensures TypeName(s) == TypeName(t) <==> s == t
  {
    if TypeName(s) == TypeName(t) {
      match s
      case IntegerObj =>
        assert TypeName(s)[0] == 'I';
      case BooleanObj =>
        assert TypeName(s)[0] == 'B' && TypeName(s)[1] == 'O';
      case NullObj =>
        assert TypeName(s)[0] == 'N';
      case StringObj =>
        assert TypeName(s)[0] == 'S';
      case ArrayObj =>
        assert TypeName(s)[0] == 'A';
      case HashObj =>
        assert TypeName(s)[0] == 'H';
      case FunctionObj =>
        assert TypeName(s)[0] == 'F';
      case BuiltInObj =>
        assert TypeName(s)[0] == 'B' && TypeName(s)[1] == 'U';
      case ReturnObj =>
        assert TypeName(s)[0] == 'R';
      case ErrorObj =>
        assert TypeName(s)[0] == 'E';
    }
  }

  /** The key a hashable object is filed under in a Hash: its tag and a 64-bit value. */
  datatype HashKey = HashKey(kind: ObjectType, value: Uint64)

  /** The six functions the interpreter predeclares. */
  datatype BuiltinKind = BuiltinLen | BuiltinFirst | BuiltinLast | BuiltinRest | BuiltinPush | BuiltinPuts

  datatype Object =
    | Integer(intValue: Int64)
    | Boolean(boolValue: bool)
    | Null
    | Str(strValue: string)
    | ReturnValue(returned: Option<Object>)
    | Error(message: string)
    | Function(parameters: seq<Identifier>, body: Block, env: Environment)
    | BuiltIn(builtin: BuiltinKind)
    | Array(elements: seq<Object>)
    | Hash(pairs: map<HashKey, HashPair>)

  /** A hash entry keeps the key object it was stored under next to the value. */
  datatype HashPair = HashPair(key: Object, value: Object)

  /** `Type()` of each object. */
  function Type(o: Object): (t: ObjectType)
    ensures o.Integer? <==> t == IntegerObj
    ensures o.Array? <==> t == ArrayObj
    ensures o.ReturnValue? <==> t == ReturnObj
  {
    match o
    case Integer(_) => IntegerObj
    case Boolean(_) => BooleanObj
    case Null => NullObj
    case Str(_) => StringObj
    case ReturnValue(_) => ReturnObj
    case Error(_) => ErrorObj
    case Function(_, _, _) => FunctionObj
    case BuiltIn(_) => BuiltInObj
    case Array(_) => ArrayObj
    case Hash(_) => HashObj
  }

  // ---------------------------------------------------------------------------
  // Inspect

  /**
   * `Inspect()` does not dereference nil: no return value wraps nil, and
   * every function body can be rendered.
   */
  predicate Inspectable(o: Object)
  {
    match o
    case ReturnValue(v) => v.Some? && Inspectable(v.value)
    case Function(_, body, _) => BlockRenderable(body)
    case Array(els) => forall i :: 0 <= i < |els| ==> Inspectable(els[i])
    case Hash(pairs) => forall k :: k in pairs ==> Inspectable(pairs[k].key) && Inspectable(pairs[k].value)
    case _ => true
  }

  /** ks lists every key of s exactly once. */
  predicate IsEnumeration(ks: seq<HashKey>, s: set<HashKey>)
  {
    |ks| == |s|
    && (forall i :: 0 <= i < |ks| ==> ks[i] in s)
    && (forall k :: k in s ==> k in ks)
  }

  lemma {:induction false} EnumerationExists(s: set<HashKey>)
    ensures exists ks :: IsEnumeration(ks, s)
    decreases |s|
  {
    if s != {} {
      var k :| k in s;
      EnumerationExists(s - {k});
      var ks :| IsEnumeration(ks, s - {k});
      assert IsEnumeration(ks + [k], s);
    } else {
      assert IsEnumeration([], s);
    }
  }

  /**
   * `Inspect()`. A Hash lists its pairs in Go's map iteration order, which
   * is unspecified; the rendering picks some enumeration of the keys and no
   * property below depends on which.
   */
  ghost function Inspect(o: Object): string
    requires Inspectable(o)
  {
    match o
    case Integer(v) => Text.IntToString(v)
    case Boolean(b) => if b then "true" else "false"
    case Null => "null"
    case Str(s) => s
    case ReturnValue(v) => Inspect(v.value)
    case Error(m) => "ERROR: " + m
    case Function(params, body, _) =>
      "fn" + "(" + Text.Join(IdentifierStrings(params), ", ") + "} {\n" + BlockString(body) + "\n}"
    case BuiltIn(_) => "builtin function"
    case Array(els) =>
      "[" + Text.Join(seq(|els|, i requires 0 <= i < |els| => Inspect(els[i])), ", ") + "]"
    case Hash(pairs) =>
      EnumerationExists(pairs.Keys);
      var ks :| IsEnumeration(ks, pairs.Keys);
      "{" + Text.Join(PairStrings(pairs, ks), ", ") + "}"
  }

  /** `key: value` for each listed key, in the listed order. */
  ghost function PairStrings(pairs: map<HashKey, HashPair>, ks: seq<HashKey>): (r: seq<string>)
    requires forall k :: k in pairs ==> Inspectable(pairs[k].key) && Inspectable(pairs[k].value)
    requires forall i :: 0 <= i < |ks| ==> ks[i] in pairs
    ensures |r| == |ks|
    decreases Hash(pairs), 0
  {
    seq(|ks|, i requires 0 <= i < |ks| => Inspect(pairs[ks[i]].key) + ": " + Inspect(pairs[ks[i]].value))
  }

  /** The inspections of a list of objects, in order. */
  ghost function Inspections(os: seq<Object>): (r: seq<string>)
    requires forall i :: 0 <= i < |os| ==> Inspectable(os[i])
    ensures |r| == |os| && forall i :: 0 <= i < |os| ==> r[i] == Inspect(os[i])
  {
    seq(|os|, i requires 0 <= i < |os| => Inspect(os[i]))
  }

  lemma ArrayIsJoin(els: seq<Object>)
    requires Inspectable(Array(els))
    ensures Inspect(Array(els)) == "[" + Text.Join(Inspections(els), ", ") + "]"
  {
    assert Inspections(els) == seq(|els|, i requires 0 <= i < |els| => Inspect(els[i]));
  }

  /** An empty array inspects as `[]`; a single element without a separator. */
  lemma ArrayInspectEmptyAndSingle(x: Object)
    requires Inspectable(x)
    ensures Inspect(Array([])) == "[]"
    ensures Inspect(Array([x])) == "[" + Inspect(x) + "]"
  {
    ArrayIsJoin([]);
    ArrayIsJoin([x]);
  }

  lemma InspectionsConcat(a: seq<Object>, b: seq<Object>)
    requires forall i :: 0 <= i < |a| ==> Inspectable(a[i])
    requires forall i :: 0 <= i < |b| ==> Inspectable(b[i])
    ensures forall i :: 0 <= i < |a + b| ==> Inspectable((a + b)[i])
    ensures Inspections(a + b) == Inspections(a) + Inspections(b)
  {
  }

  /** Elements keep their order: a front run's inspection, `, `, then a back run's. */
  lemma ArrayInspectOrder(a: seq<Object>, b: seq<Object>)
    requires |a| > 0 && |b| > 0
    requires Inspectable(Array(a)) && Inspectable(Array(b))
    ensures Inspectable(Array(a + b))
    ensures Inspect(Array(a + b))
         == "[" + Text.Join(Inspections(a), ", ") + ", " + Text.Join(Inspections(b), ", ") + "]"
  {
    InspectionsJoinConcat(a, b);
    ArrayIsJoin(a + b);
    Text.Regroup("[", Text.Join(Inspections(a), ", "), ", ", Text.Join(Inspections(b), ", "), "]");
  }

  lemma InspectionsJoinConcat(a: seq<Object>, b: seq<Object>)
    requires |a| > 0 && |b| > 0
    requires forall i :: 0 <= i < |a| ==> Inspectable(a[i])
    requires forall i :: 0 <= i < |b| ==> Inspectable(b[i])
    ensures forall i :: 0 <= i < |a + b| ==> Inspectable((a + b)[i])
    ensures Text.Join(Inspections(a + b), ", ")
         == Text.Join(Inspections(a), ", ") + ", " + Text.Join(Inspections(b), ", ")
  {
    InspectionsConcat(a, b);
    Text.JoinConcat(Inspections(a), Inspections(b), ", ");
  }

  /** An empty hash inspects as `{}`; a single entry as `{key: value}`, whatever the map order. */
  lemma HashInspectEmptyAndSingle(k: HashKey, p: HashPair)
    requires Inspectable(p.key) && Inspectable(p.value)
    ensures Inspect(Hash(map[])) == "{}"
    ensures Inspect(Hash(map[k := p])) == "{" + Inspect(p.key) + ": " + Inspect(p.value) + "}"
  {
    var pairs := map[k := p];
    forall ks | IsEnumeration(ks, pairs.Keys) ensures PairStrings(pairs, ks) == [Inspect(p.key) + ": " + Inspect(p.value)] {
      assert |ks| == 1 && ks[0] == k;
    }
  }

  /**
   * A function inspects as `fn(`, its parameters, then its body between
   * `} {` plus a newline and a closing `}` line. No `)` closes the
   * parameters: a function without parameters inspects as `fn(} {`.
   */
  lemma FunctionInspectShape(params: seq<Identifier>, body: Block, env: Environment)
    requires BlockRenderable(body)
    ensures var s, b := Inspect(Function(params, body, env)), BlockString(body);
            "fn(" <= s && |b| + 6 <= |s| && s[|s| - |b| - 6..] == "} {\n" + b + "\n}"
    ensures Inspect(Function([], body, env)) == "fn(} {\n" + BlockString(body) + "\n}"
  {
    var j, b := Text.Join(IdentifierStrings(params), ", "), BlockString(body);
    var s := Inspect(Function(params, body, env));
    assert s == "fn(" + j + ("} {\n" + b + "\n}");
    assert s[|s| - |b| - 6..] == "} {\n" + b + "\n}";
  }

  /** An error's message is its inspection without the 7-character `ERROR: ` prefix. */
  lemma ErrorInspectRoundTrip(m: string)
    ensures Inspect(Error(m))[..7] == "ERROR: "
    ensures Inspect(Error(m))[7..] == m
  {
  }

  /**
   * The leaf renderings: an integer's inspection reads back as the same
   * integer, a return value inspects as what it wraps, and a string
   * inspects without quotes, so it can look like an integer or like null.
   */
  lemma LeafInspections(n: Int64, v: Object)
    requires Inspectable(v)
    ensures Strconv.ParseInt(Inspect(Integer(n))) == Some(n)
    ensures Inspect(ReturnValue(Some(v))) == Inspect(v)
    ensures Inspect(Boolean(true)) != Inspect(Boolean(false))
    ensures Inspect(Str("5")) == Inspect(Integer(5)) && Inspect(Str("null")) == Inspect(Null)
  {
    Strconv.FormatThenParse(n);
    assert Text.IntToString(5) == "5";
  }

  // ---------------------------------------------------------------------------
  // Environment

  /**
   * A frame of name bindings with an optional enclosing frame. The outer
   * link never changes after construction; `Repr` is the chain of frames,
   * which `Valid` requires to be acyclic so lookups terminate.
   */
  class Environment {
    var store: map<string, Option<Object>>
    const outer: Environment?
    ghost const Repr: set<Environment>

    ghost predicate Valid()
      decreases Repr
    {
      this in Repr
      && (outer == null ==> Repr == {this})
      && (outer != null ==>
            outer in Repr && outer.Repr < Repr && this !in outer.Repr
            && Repr == {this} + outer.Repr && outer.Valid())
    }

    /** `NewEnvironment`: an empty store and no enclosing frame. */
    constructor ()
      ensures Valid() && fresh(this)
      ensures store == map[] && outer == null
    {
      store := map[];
      outer := null;
      Repr := {this};
    }

    /** `NewEnclosedEnvironment(o)`: an empty store enclosed by o. */
    constructor Enclosed(o: Environment?)
      requires o != null ==> o.Valid()
      ensures Valid() && fresh(this)
      ensures store == map[] && outer == o
    {
      store := map[];
      outer := o;
      Repr := {this} + (if o == null then {} else o.Repr);
    }

    /** The frames a lookup visits, innermost first. */
    ghost function Chain(): (c: seq<Environment>)
      requires Valid()
      ensures |c| > 0 && c[0] == this
      ensures forall i :: 0 <= i < |c| ==> c[i] in Repr && c[i].Valid()
      decreases Repr
    {
      if outer == null then [this] else [this] + outer.Chain()
    }

    /** What `Get(name)` returns, in the current state of every frame. */
    ghost function Lookup(name: string): (Option<Object>, bool)
      requires Valid()
      reads Repr
      decreases Repr
    {
      if name in store then (store[name], true)
      else if outer == null then (None, false)
      else outer.Lookup(name)
    }

    /** `Get`: the innermost binding of name, or (nil, false) when no frame binds it. */
    method Get(name: string) returns (obj: Option<Object>, ok: bool)
      requires Valid()
      ensures (obj, ok) == Lookup(name)
      ensures name in store ==> obj == store[name] && ok
      ensures !ok ==> obj == None
      decreases Repr
    {
      if name in store {
        obj, ok := store[name], true;
      } else {
        obj, ok := None, false;
      }
      if !ok && outer != null {
        obj, ok := outer.Get(name);
      }
    }

    /** `Set`: binds name in this frame only and returns the value. */
    method Set(name: string, val: Option<Object>) returns (r: Option<Object>)
      requires Valid()
      modifies this
      ensures Valid()
      ensures store == old(store)[name := val]
      ensures r == val
      ensures Lookup(name) == (val, true)
      ensures forall n :: n != name ==> Lookup(n) == old(Lookup(n))
      ensures outer != null ==> forall n :: outer.Lookup(n) == old(outer.Lookup(n))
    {
      store := store[name := val];
      r := val;
      if outer != null {
        OuterUnchanged(outer);
      }
    }

    twostate lemma OuterUnchanged(e: Environment)
      requires e.Valid() && this !in e.Repr
      requires forall o :: o in e.Repr ==> unchanged(o)
      ensures forall n :: e.Lookup(n) == old(e.Lookup(n))
    {
    }
  }

  /**
   * Lookup is first-match over the chain: a name is found exactly when some
   * frame binds it, and the result is the binding in the innermost such frame.
   */
  lemma {:induction false} LookupFirstFrame(e: Environment, name: string)
    requires e.Valid()
    ensures e.Lookup(name).1 <==> exists i :: 0 <= i < |e.Chain()| && name in e.Chain()[i].store
    ensures forall i :: 0 <= i < |e.Chain()| && name in e.Chain()[i].store
              && (forall j :: 0 <= j < i ==> name !in e.Chain()[j].store)
              ==> e.Lookup(name) == (e.Chain()[i].store[name], true)
    ensures !e.Lookup(name).1 ==> e.Lookup(name).0 == None
    decreases e.Repr
  {
    if name in e.store {
      assert name in e.Chain()[0].store;
    }
    if e.outer != null {
      LookupFirstFrame(e.outer, name);
      var c := e.Chain();
      assert c == [e] + e.outer.Chain();
      forall i | 1 <= i < |c| ensures c[i] == e.outer.Chain()[i - 1] {}
      if !(name in e.store) {
        if e.Lookup(name).1 {
          var i :| 0 <= i < |e.outer.Chain()| && name in e.outer.Chain()[i].store;
          assert 0 <= i + 1 < |e.Chain()| && name in e.Chain()[i + 1].store;
        }
        assert e.Lookup(name) == e.outer.Lookup(name);
        forall i | 0 <= i < |c| && name in c[i].store ensures e.Lookup(name).1 {
          assert i > 0;
          assert name in e.outer.Chain()[i - 1].store;
        }
        forall i | 0 <= i < |c| && name in c[i].store && (forall j :: 0 <= j < i ==> name !in c[j].store)
          ensures e.Lookup(name) == (c[i].store[name], true)
        {
          assert i > 0;
          forall j | 0 <= j < i - 1 ensures name !in e.outer.Chain()[j].store {
            assert name !in c[j + 1].store;
          }
        }
      }
    }
  }

  /**
   * Frames are shared, not copied: a miss in the inner frame reads the outer
   * frame as it is now, so bindings added to it later are visible inside.
   */
  lemma LookupThroughOuter(e: Environment, name: string)
    requires e.Valid() && e.outer != null && name !in e.store
    ensures e.Lookup(name) == e.outer.Lookup(name)
  {
  }

  /** A local binding shadows every enclosing one. */
  lemma LocalShadows(e: Environment, name: string)
    requires e.Valid() && name in e.store
    ensures e.Lookup(name) == (e.store[name], true)
  {
  }
}
