/** List literals and comprehensions at the high level, and their compilation to lazy loops. */
module Comprehensions {
  import opened Sums
  import Semantics
  import Lazy = LazyLists

  datatype Expression =
    | Number(number: int)
    | Add(left: Expression, right: Expression)
    | Variable(name: string)
    | Let(name: string, bound: Expression, body: Expression)
    | Lambda(arguments: seq<string>, body: Expression)
    | Call(callee: Expression, operands: seq<Expression>)
    | List(elements: seq<Element>)
    | IfList(any: bool, list: Expression, first: string, rest: string, then_: Expression, otherwise: Expression)
    | ListComprehension(any: bool, element: Expression, name: string, list: Expression)
    | MapComprehension(element: Expression, key: string, value: string, map_: Expression)

  /** `any` above tells whether the elements of a list are of the any type; other ones are downcast. */
  datatype Element = Single(expression: Expression) | Multiple(expression: Expression)

  /** Elements of lists are functions without arguments: they are evaluated when they are called. */
  datatype Value =
    | Number(number: int)
    | Closure(arguments: seq<string>, body: Expression, environment: seq<Binding>)
    | List(elements: seq<Value>)
    | Map(entries: seq<Entry>)

  datatype Binding = Binding(name: string, value: Value)
  datatype Entry = Entry(key: Value, value: Value)

  type Environment = seq<Binding>

  function Lookup(env: Environment, name: string): Option<Value> {
    if env == [] then None
    else if env[0].name == name then Some(env[0].value)
    else Lookup(env[1..], name)
  }

  function BindAll(env: Environment, arguments: seq<string>, values: seq<Value>): Environment
    requires |arguments| == |values|
    decreases |arguments|
  {
    if arguments == [] then env else BindAll([Binding(arguments[0], values[0])] + env, arguments[1..], values[1..])
  }

  // ----- Meaning -----

  /** One element for every element of a list, in order. */
  function Mapped(env: Environment, element: Expression, name: string, elements: seq<Value>): (r: seq<Value>)
    ensures |r| == |elements|
  {
    seq(|elements|, i requires 0 <= i < |elements| => Closure([], element, [Binding(name, elements[i])] + env))
  }

  /** One element for every entry of a map, in order of iteration. */
  function MappedEntries(env: Environment, element: Expression, key: string, value: string, entries: seq<Entry>): (r: seq<Value>)
    ensures |r| == |entries|
  {
    seq(|entries|, i requires 0 <= i < |entries| =>
      Closure([], element, [Binding(value, entries[i].value), Binding(key, entries[i].key)] + env))
  }

  /** Evaluation with at most `n` nested calls; nothing when it is stuck or needs more calls. */
  function Eval(n: nat, env: Environment, e: Expression): Option<Value>
    decreases 2 * n + 1, e, 0
  {
    match e
    case Number(number) => Some(Value.Number(number))
    case Add(left, right) =>
      (match (Eval(n, env, left), Eval(n, env, right))
       case (Some(Number(a)), Some(Number(b))) => Some(Value.Number(a + b))
       case _ => None)
    case Variable(name) => Lookup(env, name)
    case Let(name, bound, body) =>
      (match Eval(n, env, bound)
       case Some(v) => Eval(n, [Binding(name, v)] + env, body)
       case None => None)
    case Lambda(arguments, body) => Some(Closure(arguments, body, env))
    case Call(callee, operands) =>
      (match (Eval(n, env, callee), EvalAll(n, env, operands))
       case (Some(f), Some(values)) => Apply(n, f, values)
       case _ => None)
    case List(elements) =>
      (match EvalElements(n, env, elements)
       case Some(vs) => Some(Value.List(vs))
       case None => None)
    case IfList(_, list, first, rest, then_, otherwise) =>
      (match Eval(n, env, list)
       case Some(List(vs)) =>
         if vs == [] then Eval(n, env, otherwise)
         else Eval(n, [Binding(rest, Value.List(vs[1..])), Binding(first, vs[0])] + env, then_)
       case _ => None)
    case ListComprehension(_, element, name, list) =>
      (match Eval(n, env, list)
       case Some(List(vs)) => Some(Value.List(Mapped(env, element, name, vs)))
       case _ => None)
    case MapComprehension(element, key, value, map_) =>
      (match Eval(n, env, map_)
       case Some(Map(entries)) => Some(Value.List(MappedEntries(env, element, key, value, entries)))
       case _ => None)
  }

  function EvalAll(n: nat, env: Environment, es: seq<Expression>): (r: Option<seq<Value>>)
    ensures r.Some? ==> |r.value| == |es|
    decreases 2 * n + 1, es, 0
  {
    if es == [] then Some([])
    else
      match (Eval(n, env, es[0]), EvalAll(n, env, es[1..]))
      case (Some(v), Some(vs)) => Some([v] + vs)
      case _ => None
  }

  function EvalElements(n: nat, env: Environment, es: seq<Element>): Option<seq<Value>>
    decreases 2 * n + 1, es, 0
  {
    if es == [] then Some([])
    else
      match (EvalElement(n, env, es[0]), EvalElements(n, env, es[1..]))
      case (Some(vs), Some(ws)) => Some(vs + ws)
      case _ => None
  }

  function EvalElement(n: nat, env: Environment, element: Element): Option<seq<Value>>
    decreases 2 * n + 1, element, 0
  {
    match element
    case Single(e) => Some([Closure([], e, env)])
    case Multiple(e) =>
      match Eval(n, env, e)
      case Some(List(vs)) => Some(vs)
      case _ => None
  }

  function Apply(n: nat, f: Value, values: seq<Value>): Option<Value>
    decreases 2 * n
  {
    if !f.Closure? || |f.arguments| != |values| || n == 0 then None
    else Eval(n - 1, BindAll(f.environment, f.arguments, values), f.body)
  }

  // ----- Compilation -----

  const CLOSURE_NAME: string := "$closure"
  const THUNK_NAME: string := "$thunk"
  const LOOP_NAME: string := "$loop"
  const LIST_NAME: string := "$list"
  const ITERATOR_NAME: string := "$iterator"
  const FIRST_REST_NAME: string := "$firstRest"

  function CallPrelude(f: Lazy.Function, operands: seq<Lazy.Code>): Lazy.Code {
    Lazy.Code.Call(Lazy.Code.Prelude(f), operands)
  }

  function Thunk(e: Lazy.Code): Lazy.Code {
    Lazy.LetRecursive(THUNK_NAME, [], e, Lazy.Code.Variable(THUNK_NAME))
  }

  /** The first element of a list: a function that downcasts, unless it is of the any type. */
  function CompileFirst(any: bool, first: string): Lazy.Code {
    var call := CallPrelude(Lazy.GetFirst, [Lazy.Code.Variable(FIRST_REST_NAME)]);
    if any then call
    else
      Lazy.Code.Let(first, call,
                    Lazy.LetRecursive(CLOSURE_NAME, [], Lazy.Code.Call(Lazy.Code.Variable(first), []),
                                      Lazy.Code.Variable(CLOSURE_NAME)))
  }

  function CompileIfList(any: bool, list: Lazy.Code, first: string, rest: string, then_: Lazy.Code,
                      otherwise: Lazy.Code): Lazy.Code {
    Lazy.IfNone(
      FIRST_REST_NAME,
      CallPrelude(Lazy.DeconstructList, [list]),
      Lazy.Code.Let(first, CompileFirst(any, first),
                    Lazy.Code.Let(rest, CallPrelude(Lazy.GetRest, [Lazy.Code.Variable(FIRST_REST_NAME)]), then_)),
      otherwise)
  }

  /** A list of a single element followed by the rest of a loop. */
  function CompileStep(element: Lazy.Code, rest: Lazy.Code): Lazy.Code {
    CallPrelude(Lazy.PrependToList, [Thunk(element), CallPrelude(Lazy.LazyList, [Thunk(rest)])])
  }

  /** A lazy list that is computed by a loop; the loop's name shadows the one of the outer function. */
  function CompileLoop(argument: string, body: Lazy.Code, start: Lazy.Code): Lazy.Code {
    CallPrelude(
      Lazy.LazyList,
      [Lazy.LetRecursive(
         LOOP_NAME, [],
         Lazy.LetRecursive(LOOP_NAME, [argument], body, Lazy.Code.Call(Lazy.Code.Variable(LOOP_NAME), [start])),
         Lazy.Code.Variable(LOOP_NAME))])
  }

  function ListBody(any: bool, element: Lazy.Code, name: string): Lazy.Code {
    CompileIfList(
      any, Lazy.Code.Variable(LIST_NAME), name, LIST_NAME,
      CompileStep(element, Lazy.Code.Call(Lazy.Code.Variable(LOOP_NAME), [Lazy.Code.Variable(LIST_NAME)])),
      CallPrelude(Lazy.EmptyList, []))
  }

  function MapBody(element: Lazy.Code, key: string, value: string): Lazy.Code {
    var i := Lazy.Code.Variable(ITERATOR_NAME);
    Lazy.IfNone(
      ITERATOR_NAME, i,
      Lazy.Code.Let(
        key, CallPrelude(Lazy.IteratorKey, [i]),
        Lazy.Code.Let(
          value, CallPrelude(Lazy.IteratorValue, [i]),
          CompileStep(element, Lazy.Code.Call(Lazy.Code.Variable(LOOP_NAME), [CallPrelude(Lazy.IteratorRest, [i])])))),
      CallPrelude(Lazy.EmptyList, []))
  }

  function Compile(e: Expression): Lazy.Code
    decreases e, 0
  {
    match e
    case Number(number) => Lazy.Code.Number(number)
    case Add(left, right) => Lazy.Code.Add(Compile(left), Compile(right))
    case Variable(name) => Lazy.Code.Variable(name)
    case Let(name, bound, body) => Lazy.Code.Let(name, Compile(bound), Compile(body))
    case Lambda(arguments, body) =>
      Lazy.LetRecursive(CLOSURE_NAME, arguments, Compile(body), Lazy.Code.Variable(CLOSURE_NAME))
    case Call(callee, operands) => Lazy.Code.Call(Compile(callee), CompileAll(operands))
    case List(elements) => CompileElements(elements)
    case IfList(any, list, first, rest, then_, otherwise) =>
      CompileIfList(any, Compile(list), first, rest, Compile(then_), Compile(otherwise))
    case ListComprehension(any, element, name, list) =>
      CompileLoop(LIST_NAME, ListBody(any, Compile(element), name), Compile(list))
    case MapComprehension(element, key, value, map_) =>
      CompileLoop(ITERATOR_NAME, MapBody(Compile(element), key, value), CallPrelude(Lazy.IterateMap, [Compile(map_)]))
  }

  function CompileAll(es: seq<Expression>): (r: seq<Lazy.Code>)
    ensures |r| == |es|
    decreases es, 0
  {
    if es == [] then [] else [Compile(es[0])] + CompileAll(es[1..])
  }

  function CompileElements(es: seq<Element>): Lazy.Code
    decreases es, 0
  {
    if es == [] then CallPrelude(Lazy.EmptyList, [])
    else
      var thunk := Thunk(CompileElement(es[0]));
      if es[0].Single? then CallPrelude(Lazy.PrependToList, [thunk, CompileElements(es[1..])])
      else if |es| == 1 then CallPrelude(Lazy.LazyList, [thunk])
      else CallPrelude(Lazy.ConcatenateLists, [thunk, CompileElements(es[1..])])
  }

  function CompileElement(element: Element): Lazy.Code
    decreases element, 0
  {
    match element
    case Single(e) => Compile(e)
    case Multiple(e) => Compile(e)
  }

  // ----- Names -----

  predicate AllUserNames(names: seq<string>) {
    forall i :: 0 <= i < |names| ==> Semantics.IsUserName(names[i])
  }

  /** Programs bind no generated names. */
  predicate WellNamed(e: Expression)
    decreases e, 0
  {
    match e
    case Number(_) => true
    case Add(left, right) => WellNamed(left) && WellNamed(right)
    case Variable(_) => true
    case Let(name, bound, body) => Semantics.IsUserName(name) && WellNamed(bound) && WellNamed(body)
    case Lambda(arguments, body) => AllUserNames(arguments) && WellNamed(body)
    case Call(callee, operands) => WellNamed(callee) && AllWellNamed(operands)
    case List(elements) => ElementsWellNamed(elements)
    case IfList(_, list, first, rest, then_, otherwise) =>
      Semantics.IsUserName(first) && Semantics.IsUserName(rest) && WellNamed(list) && WellNamed(then_) && WellNamed(otherwise)
    case ListComprehension(_, element, name, list) => Semantics.IsUserName(name) && WellNamed(element) && WellNamed(list)
    case MapComprehension(element, key, value, map_) =>
      Semantics.IsUserName(key) && Semantics.IsUserName(value) && WellNamed(element) && WellNamed(map_)
  }

  predicate AllWellNamed(es: seq<Expression>)
    decreases es, 0
  {
    es != [] ==> WellNamed(es[0]) && AllWellNamed(es[1..])
  }

  predicate ElementsWellNamed(es: seq<Element>)
    decreases es, 0
  {
    es != [] ==> ElementWellNamed(es[0]) && ElementsWellNamed(es[1..])
  }

  predicate ElementWellNamed(element: Element)
    decreases element, 0
  {
    match element
    case Single(e) => WellNamed(e)
    case Multiple(e) => WellNamed(e)
  }
}
