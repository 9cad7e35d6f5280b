/**
 Lists that are computed on demand: the functions of the prelude's list library, and the fragment
 of the mid-level representation that comprehensions are compiled to.  The fragment is pure, so
 that the memoization of thunks cannot be observed.
 */
module LazyLists {
  import opened Sums

  /** The functions of the prelude that compiled code calls. */
  datatype Function =
    | EmptyList | PrependToList | LazyList | ConcatenateLists | DeconstructList | GetFirst | GetRest
    | IterateMap | IteratorKey | IteratorValue | IteratorRest

  datatype Code =
    | Number(number: int)
    | Add(left: Code, right: Code)
    | Variable(name: string)
    | Prelude(function_: Function)
    | Let(name: string, bound: Code, body: Code)
    | LetRecursive(name: string, arguments: seq<string>, functionBody: Code, body: Code)
    | Call(callee: Code, operands: seq<Code>)
    | IfNone(name: string, argument: Code, otherwise: Code, none: Code)    // a type test for none

  datatype Value =
    | Number(number: int)
    | Closure(self: string, arguments: seq<string>, body: Code, environment: seq<Binding>)
    | Prelude(function_: Function)
    | List(node: Node)
    | FirstRest(first: Value, rest: Node)
    | Map(entries: seq<Entry>)
    | Iterator(entries: seq<Entry>)
    | None_

  datatype Binding = Binding(name: string, value: Value)
  datatype Entry = Entry(key: Value, value: Value)

  /** The functions that compute nodes of lists, with what they capture. */
  datatype Node =
    | Empty
    | Prepended(first: Value, rest: Node)
    | Forced(list: Value)
    | Concatenated(list: Value, rest: Node)
    | Chained(left: Node, right: Node)

  /** What a function for a node returns. */
  datatype Unfolded = End | More(first: Value, rest: Node)

  type Environment = seq<Binding>

  function Lookup(env: Environment, name: string): Option<Value> {
    if env == [] then None
    else if env[0].name == name then Some(env[0].value)
    else Lookup(env[1..], name)
  }

  function BindAll(env: Environment, arguments: seq<string>, values: seq<Value>): Environment
    requires |arguments| == |values|
    decreases |arguments|
  {
    if arguments == [] then env else BindAll([Binding(arguments[0], values[0])] + env, arguments[1..], values[1..])
  }

  /** Evaluation with at most `n` nested calls; nothing when it is stuck or needs more calls. */
  function Eval(n: nat, env: Environment, e: Code): Option<Value>
    decreases 2 * n + 1, e, 0
  {
    match e
    case Number(number) => Some(Value.Number(number))
    case Add(left, right) =>
      (match (Eval(n, env, left), Eval(n, env, right))
       case (Some(Number(a)), Some(Number(b))) => Some(Value.Number(a + b))
       case _ => None)
    case Variable(name) => Lookup(env, name)
    case Prelude(function_) => Some(Value.Prelude(function_))
    case Let(name, bound, body) =>
      (match Eval(n, env, bound)
       case Some(v) => Eval(n, [Binding(name, v)] + env, body)
       case None => None)
    case LetRecursive(name, arguments, functionBody, body) =>
      Eval(n, [Binding(name, Closure(name, arguments, functionBody, env))] + env, body)
    case Call(callee, operands) =>
      (match (Eval(n, env, callee), EvalAll(n, env, operands))
       case (Some(f), Some(values)) => Apply(n, f, values)
       case _ => None)
    case IfNone(name, argument, otherwise, none) =>
      (match Eval(n, env, argument)
       case Some(v) => Eval(n, [Binding(name, v)] + env, if v.None_? then none else otherwise)
       case None => None)
  }

  function EvalAll(n: nat, env: Environment, es: seq<Code>): (r: Option<seq<Value>>)
    ensures r.Some? ==> |r.value| == |es|
    decreases 2 * n + 1, es, 0
  {
    if es == [] then Some([])
    else
      match (Eval(n, env, es[0]), EvalAll(n, env, es[1..]))
      case (Some(v), Some(vs)) => Some([v] + vs)
      case _ => None
  }

  function Apply(n: nat, f: Value, values: seq<Value>): Option<Value>
    decreases 2 * n, 1
  {
    match f
    case Closure(self, arguments, body, env) =>
      if |arguments| != |values| || n == 0 then None
      else Eval(n - 1, BindAll([Binding(self, f)] + env, arguments, values), body)
    case Prelude(function_) => ApplyPrelude(n, function_, values)
    case _ => None
  }

  function ApplyPrelude(n: nat, f: Function, values: seq<Value>): Option<Value>
    decreases 2 * n, 0, 1
  {
    if values == [] then (if f.EmptyList? then Some(List(Empty)) else None)
    else if |values| == 2 then
      (match (f, values[1])
       case (PrependToList, List(node)) => Some(List(Prepended(values[0], node)))
       case (ConcatenateLists, List(node)) => Some(List(Concatenated(values[0], node)))
       case _ => None)
    else if |values| > 2 then None
    else
      match (f, values[0])
      case (LazyList, x) => Some(List(Forced(x)))
      case (DeconstructList, List(node)) =>
        (match Unfold(n, node)
         case Some(End) => Some(None_)
         case Some(More(first, rest)) => Some(FirstRest(first, rest))
         case None => None)
      case (GetFirst, FirstRest(first, _)) => Some(first)
      case (GetRest, FirstRest(_, rest)) => Some(List(rest))
      case (IterateMap, Map(entries)) => Some(if entries == [] then None_ else Iterator(entries))
      case (IteratorKey, Iterator(entries)) => if entries == [] then None else Some(entries[0].key)
      case (IteratorValue, Iterator(entries)) => if entries == [] then None else Some(entries[0].value)
      case (IteratorRest, Iterator(entries)) =>
        if entries == [] then None else Some(if |entries| == 1 then None_ else Iterator(entries[1..]))
      case _ => None
  }

  /** Calls the function of a node. */
  function Unfold(n: nat, node: Node): Option<Unfolded>
    decreases 2 * n, 0, 0
  {
    if n == 0 then None
    else
      match node
      case Empty => Some(End)
      case Prepended(first, rest) => Some(More(first, rest))
      case Forced(x) =>
        (match Apply(n - 1, x, [])
         case Some(List(node)) => Unfold(n - 1, node)
         case _ => None)
      case Concatenated(x, right) =>
        (match Apply(n - 1, x, [])
         case Some(List(left)) => UnfoldChain(n - 1, left, right)
         case _ => None)
      case Chained(left, right) => UnfoldChain(n - 1, left, right)
  }

  function UnfoldChain(n: nat, left: Node, right: Node): Option<Unfolded>
    decreases 2 * n, 0, 1
  {
    match Unfold(n, left)
    case Some(End) => Unfold(n, right)
    case Some(More(first, rest)) => Some(More(first, Chained(rest, right)))
    case None => None
  }

  // ----- More calls change no results -----

  ghost predicate Grows<T>(a: Option<T>, b: Option<T>) {
    a.Some? ==> b == a
  }

  lemma {:induction false} EvalGrows(n: nat, m: nat, env: Environment, e: Code)
    requires n <= m
    ensures Grows(Eval(n, env, e), Eval(m, env, e))
    decreases 2 * n + 1, e, 0
  {
    match e
    case Number(_) =>
    case Variable(_) =>
    case Prelude(_) =>
    case Add(left, right) =>
      EvalGrows(n, m, env, left);
      EvalGrows(n, m, env, right);
    case Let(name, bound, body) =>
      EvalGrows(n, m, env, bound);
      if Eval(n, env, bound).Some? {
        EvalGrows(n, m, [Binding(name, Eval(n, env, bound).value)] + env, body);
      }
    case LetRecursive(name, arguments, functionBody, body) =>
      EvalGrows(n, m, [Binding(name, Closure(name, arguments, functionBody, env))] + env, body);
    case Call(callee, operands) =>
      EvalGrows(n, m, env, callee);
      EvalAllGrows(n, m, env, operands);
      if Eval(n, env, callee).Some? && EvalAll(n, env, operands).Some? {
        ApplyGrows(n, m, Eval(n, env, callee).value, EvalAll(n, env, operands).value);
      }
    case IfNone(name, argument, otherwise, none) =>
      EvalGrows(n, m, env, argument);
      if Eval(n, env, argument).Some? {
        var v := Eval(n, env, argument).value;
        EvalGrows(n, m, [Binding(name, v)] + env, if v.None_? then none else otherwise);
      }
  }

  lemma {:induction false} EvalAllGrows(n: nat, m: nat, env: Environment, es: seq<Code>)
    requires n <= m
    ensures Grows(EvalAll(n, env, es), EvalAll(m, env, es))
    decreases 2 * n + 1, es, 0
  {
    if es != [] {
      EvalGrows(n, m, env, es[0]);
      EvalAllGrows(n, m, env, es[1..]);
    }
  }

  lemma {:induction false} ApplyGrows(n: nat, m: nat, f: Value, values: seq<Value>)
    requires n <= m
    ensures Grows(Apply(n, f, values), Apply(m, f, values))
    decreases 2 * n, 1
  {
    match f
    case Closure(self, arguments, body, env) =>
      if |arguments| == |values| && n > 0 {
        EvalGrows(n - 1, m - 1, BindAll([Binding(self, f)] + env, arguments, values), body);
      }
    case Prelude(DeconstructList) =>
      if |values| == 1 && values[0].List? {
        UnfoldGrows(n, m, values[0].node);
      }
    case _ =>
  }

  lemma UnfoldChainGrows(n: nat, m: nat, left: Node, right: Node)
    requires n <= m
    ensures Grows(UnfoldChain(n, left, right), UnfoldChain(m, left, right))
  {
    UnfoldGrows(n, m, left);
    UnfoldGrows(n, m, right);
  }

  lemma {:induction false} UnfoldGrows(n: nat, m: nat, node: Node)
    requires n <= m
    ensures Grows(Unfold(n, node), Unfold(m, node))
    decreases 2 * n, 0, 0
  {
    if n > 0 {
      match node
      case Empty =>
      case Prepended(_, _) =>
      case Forced(x) =>
        ApplyGrows(n - 1, m - 1, x, []);
        if Apply(n - 1, x, []).Some? && Apply(n - 1, x, []).value.List? {
          UnfoldGrows(n - 1, m - 1, Apply(n - 1, x, []).value.node);
        }
      case Concatenated(x, right) =>
        ApplyGrows(n - 1, m - 1, x, []);
        if Apply(n - 1, x, []).Some? && Apply(n - 1, x, []).value.List? {
          UnfoldGrows(n - 1, m - 1, Apply(n - 1, x, []).value.node);
          UnfoldGrows(n - 1, m - 1, right);
        }
      case Chained(left, right) =>
        UnfoldGrows(n - 1, m - 1, left);
        UnfoldGrows(n - 1, m - 1, right);
    }
  }
}
