/** Programs with comprehensions and their compiled code have the same results, at any nesting. */
module ComprehensionSimulation {
  import opened Sums
  import Semantics
  import Lazy = LazyLists
  import opened Comprehensions
  import opened ComprehensionTheorems

  lemma Grow(k: nat, n: nat, menv: Lazy.Environment, e: Lazy.Code, m: Lazy.Value)
    requires k <= n && Lazy.Eval(k, menv, e) == Some(m)
    ensures Lazy.Eval(n, menv, e) == Some(m)
  {
    Lazy.EvalGrows(k, n, menv, e);
  }

  lemma {:induction false} SimulatesAdd(n: nat, env: Environment, menv: Lazy.Environment,
                      e: Expression) returns (k: nat, m: Lazy.Value)
    requires e.Add? && Mirrors(env, menv) && WellNamed(e) && Eval(n, env, e).Some?
    ensures Lazy.Eval(k, menv, Compile(e)) == Some(m) && Represents(Eval(n, env, e).value, m)
    decreases 2 * n + 1, e, 0
  {
    hide Mirrors;
    var i, a := Simulates(n, env, menv, e.left);
    var j, b := Simulates(n, env, menv, e.right);
    k := Max(i, j);
    Grow(i, k, menv, Compile(e.left), a);
    Grow(j, k, menv, Compile(e.right), b);
    m := Lazy.Value.Number(a.number + b.number);
  }

  lemma {:induction false} SimulatesLet(n: nat, env: Environment, menv: Lazy.Environment,
                      e: Expression) returns (k: nat, m: Lazy.Value)
    requires e.Let? && Mirrors(env, menv) && WellNamed(e) && Eval(n, env, e).Some?
    ensures Lazy.Eval(k, menv, Compile(e)) == Some(m) && Represents(Eval(n, env, e).value, m)
    decreases 2 * n + 1, e, 0
  {
    hide Mirrors, Represents;
    var i, a := Simulates(n, env, menv, e.bound);
    var v := Eval(n, env, e.bound).value;
    BindMirrors(env, menv, e.name, v, a);
    var j, b := Simulates(n, [Binding(e.name, v)] + env, [Lazy.Binding(e.name, a)] + menv, e.body);
    k, m := Max(i, j), b;
    Grow(i, k, menv, Compile(e.bound), a);
    Grow(j, k, [Lazy.Binding(e.name, a)] + menv, Compile(e.body), b);
  }

  lemma {:induction false} SimulatesAll(n: nat, env: Environment, menv: Lazy.Environment, es: seq<Expression>)
    returns (k: nat, ms: seq<Lazy.Value>)
    requires Mirrors(env, menv) && AllWellNamed(es) && EvalAll(n, env, es).Some?
    ensures Lazy.EvalAll(k, menv, CompileAll(es)) == Some(ms) && RepresentsAll(EvalAll(n, env, es).value, ms)
    decreases 2 * n + 1, es, 0
  {
    hide Mirrors, Represents, Compile, WellNamed;
    if es == [] {
      k, ms := 0, [];
    } else {
      var i, a := Simulates(n, env, menv, es[0]);
      var j, bs := SimulatesAll(n, env, menv, es[1..]);
      k, ms := Max(i, j), [a] + bs;
      Grow(i, k, menv, Compile(es[0]), a);
      Lazy.EvalAllGrows(j, k, menv, CompileAll(es[1..]));
      assert CompileAll(es)[0] == Compile(es[0]) && CompileAll(es)[1..] == CompileAll(es[1..]);
      ConsRepresents(Eval(n, env, es[0]).value, a, EvalAll(n, env, es[1..]).value, bs);
      hide RepresentsAll, Eval, Lazy.Eval;
    }
  }

  lemma ConsRepresents(v: Value, m: Lazy.Value, vs: seq<Value>, ms: seq<Lazy.Value>)
    requires Represents(v, m) && RepresentsAll(vs, ms)
    ensures RepresentsAll([v] + vs, [m] + ms)
  {
    hide Represents;
    forall i | 0 <= i < |vs| + 1 ensures Represents(([v] + vs)[i], ([m] + ms)[i]) {
      if i > 0 {
        assert Represents(vs[i - 1], ms[i - 1]);
      }
    }
  }

  lemma {:induction false} SimulatesCall(n: nat, env: Environment, menv: Lazy.Environment,
                      e: Expression) returns (k: nat, m: Lazy.Value)
    requires e.Call? && Mirrors(env, menv) && WellNamed(e) && Eval(n, env, e).Some?
    ensures Lazy.Eval(k, menv, Compile(e)) == Some(m) && Represents(Eval(n, env, e).value, m)
    decreases 2 * n + 1, e, 0
  {
    hide Mirrors, Represents, Apply, Lazy.Apply;
    var i, a := Simulates(n, env, menv, e.callee);
    var j, bs := SimulatesAll(n, env, menv, e.operands);
    var h, b := SimulatesApply(n, Eval(n, env, e.callee).value, a, EvalAll(n, env, e.operands).value, bs);
    k, m := Max(i, Max(j, h)), b;
    Grow(i, k, menv, Compile(e.callee), a);
    Lazy.EvalAllGrows(j, k, menv, CompileAll(e.operands));
    Lazy.ApplyGrows(h, k, a, bs);
  }

  /** Calls of represented functions, through any number of downcasts of elements of lists. */
  lemma {:induction false} SimulatesApply(n: nat, f: Value, m: Lazy.Value, vs: seq<Value>,
                      ms: seq<Lazy.Value>) returns (k: nat, r: Lazy.Value)
    requires Represents(f, m) && RepresentsAll(vs, ms) && Apply(n, f, vs).Some?
    ensures Lazy.Apply(k, m, ms) == Some(r) && Represents(Apply(n, f, vs).value, r)
    decreases 2 * n, m
  {
    hide Eval, Lazy.Eval, Compile, WellNamed, Mirrors;
    if AllUserNames(f.arguments) && WellNamed(f.body) && m.body == Compile(f.body) && Mirrors(f.environment, m.environment) {
      hide Represents;
      var menv := [Lazy.Binding(m.self, m)] + m.environment;
      GeneratedMirrors(f.environment, m.environment, m.self, m);
      BindAllMirrors(f.environment, menv, f.arguments, vs, ms);
      k, r := Simulates(n - 1, BindAll(f.environment, f.arguments, vs), Lazy.BindAll(menv, f.arguments, ms), f.body);
      k := k + 1;
    } else {
      var inner := m.environment[0];
      assert Represents(f, inner.value);
      k, r := SimulatesApply(n, f, inner.value, vs, ms);
      hide Represents;
      var menv := [Lazy.Binding(m.self, m)] + m.environment;
      assert menv[1..] == m.environment;
      VariableEvals(k, menv, inner.name);
      assert Lazy.Lookup(menv, inner.name) == Some(inner.value);
      assert ms == [];
      CallEvals(k, menv, inner.name);
      AppliesNullary(k, m);
      k := k + 1;
    }
  }

  lemma VariableEvals(n: nat, menv: Lazy.Environment, name: string)
    ensures Lazy.Eval(n, menv, Lazy.Code.Variable(name)) == Lazy.Lookup(menv, name)
  {
  }

  lemma CallEvals(n: nat, menv: Lazy.Environment, name: string)
    requires Lazy.Lookup(menv, name).Some?
    ensures Lazy.Eval(n, menv, Lazy.Code.Call(Lazy.Code.Variable(name), [])) == Lazy.Apply(n, Lazy.Lookup(menv, name).value, [])
  {
    hide Lazy.Apply;
    VariableEvals(n, menv, name);
  }

  // ----- Lists -----

  /** A thunk for a list, and the list that it is evaluated to. */
  lemma {:induction false} SimulatesThunk(n: nat, env: Environment, menv: Lazy.Environment,
                      e: Expression) returns (k: nat, node: Lazy.Node)
    requires Mirrors(env, menv) && WellNamed(e) && Eval(n, env, e).Some? && Eval(n, env, e).value.List?
    ensures Lazy.Apply(k, ThunkOf(Compile(e), menv), []) == Some(Lazy.List(node)) && Unrolls(Eval(n, env, e).value.elements, node)
    decreases 2 * n + 1, e, 2
  {
    hide Mirrors, Compile, WellNamed, Eval, Lazy.Eval, Lazy.Apply;
    var thunk := ThunkOf(Compile(e), menv);
    GeneratedMirrors(env, menv, THUNK_NAME, thunk);
    var i, m := Simulates(n, env, [Lazy.Binding(THUNK_NAME, thunk)] + menv, e);
    AppliesNullary(i, thunk);
    k, node := i + 1, m.node;
  }

  lemma {:induction false} SimulatesElements(n: nat, env: Environment, menv: Lazy.Environment,
                      es: seq<Element>) returns (k: nat, node: Lazy.Node)
    requires Mirrors(env, menv) && ElementsWellNamed(es) && EvalElements(n, env, es).Some?
    ensures Lazy.Eval(k, menv, CompileElements(es)) == Some(Lazy.List(node)) && Unrolls(EvalElements(n, env, es).value, node)
    decreases 2 * n + 1, es, 0
  {
    hide Mirrors, Represents, Compile, WellNamed, Unrolls, Lazy.Eval, Lazy.EvalAll, Lazy.Apply, Lazy.Unfold, CallPrelude;
    if es == [] {
      k, node := 0, Lazy.Empty;
      EvalsEmpty(0, menv);
      EmptyUnrolls();
    } else {
      var e := es[0].expression;
      var code := CompileElement(es[0]);
      var thunk := ThunkOf(code, menv);
      var rest;
      k, rest := SimulatesElements(n, env, menv, es[1..]);
      var vs := EvalElements(n, env, es[1..]).value;
      EvalsFunction(k, menv, THUNK_NAME, [], code);
      EvalsTwo(k, menv, Thunk(code), CompileElements(es[1..]));
      if es[0].Single? {
        node := Lazy.Prepended(thunk, rest);
        EvalsPrelude(k, menv, Lazy.PrependToList, [Thunk(code), CompileElements(es[1..])]);
        SingleUnrolls(env, menv, e, vs, rest);
      } else {
        var i, list := SimulatesElement(n, env, menv, es[0]);
        var us := EvalElement(n, env, es[0]).value;
        if |es| == 1 {
          node := Lazy.Forced(thunk);
          EvalsOne(k, menv, Thunk(code));
          EvalsPrelude(k, menv, Lazy.LazyList, [Thunk(code)]);
          ForcedUnrolls(us, thunk, i, list);
          assert EvalElements(n, env, es[1..]) == Some([]) && us + [] == us;
        } else {
          node := Lazy.Concatenated(thunk, rest);
          EvalsPrelude(k, menv, Lazy.ConcatenateLists, [Thunk(code), CompileElements(es[1..])]);
          ConcatenatedUnrolls(us, vs, thunk, i, list, rest);
        }
      }
    }
  }

  lemma SingleUnrolls(env: Environment, menv: Lazy.Environment, e: Expression, vs: seq<Value>, rest: Lazy.Node)
    requires Mirrors(env, menv) && WellNamed(e) && Unrolls(vs, rest)
    ensures Unrolls([Closure([], e, env)] + vs, Lazy.Prepended(ThunkOf(Compile(e), menv), rest))
  {
    hide Mirrors, Compile, WellNamed, Unrolls, Represents;
    ThunkRepresents(e, env, menv);
    PrependedUnrolls(Closure([], e, env), vs, ThunkOf(Compile(e), menv), rest);
  }

  lemma {:induction false} SimulatesElement(n: nat, env: Environment, menv: Lazy.Environment,
                      element: Element) returns (k: nat, node: Lazy.Node)
    requires element.Multiple? && Mirrors(env, menv) && ElementWellNamed(element) && EvalElement(n, env, element).Some?
    ensures Lazy.Apply(k, ThunkOf(CompileElement(element), menv), []) == Some(Lazy.List(node))
    ensures Unrolls(EvalElement(n, env, element).value, node)
    decreases 2 * n + 1, element, 0
  {
    hide Mirrors, Compile, WellNamed, Unrolls, Lazy.Apply;
    match element
    case Multiple(e) => k, node := SimulatesThunk(n, env, menv, e);
  }

  lemma {:induction false} SimulatesIfList(n: nat, env: Environment, menv: Lazy.Environment,
                      e: Expression) returns (k: nat, m: Lazy.Value)
    requires e.IfList? && Mirrors(env, menv) && WellNamed(e) && Eval(n, env, e).Some?
    ensures Lazy.Eval(k, menv, Compile(e)) == Some(m) && Represents(Eval(n, env, e).value, m)
    decreases 2 * n + 1, e, 0
  {
    hide Mirrors, Lazy.Eval, Lazy.Unfold, CompileIfList, FirstOf;
    var i, list := Simulates(n, env, menv, e.list);
    var vs, node := Eval(n, env, e.list).value.elements, list.node;
    assert Unrolls(vs, node);
    hide Represents;
    var j := UnrollsAt(vs, node);
    if vs == [] {
      var menv' := [Lazy.Binding(FIRST_REST_NAME, Lazy.None_)] + menv;
      GeneratedMirrors(env, menv, FIRST_REST_NAME, Lazy.None_);
      var h;
      h, m := Simulates(n, env, menv', e.otherwise);
      k := Max(i, Max(j, h));
      Grow(h, k, menv', Compile(e.otherwise), m);
    } else {
      var first, rest := Lazy.Unfold(j, node).value.first, Lazy.Unfold(j, node).value.rest;
      var menv' := IfListEnvironment(e.any, menv, e.first, e.rest, first, rest);
      IfListMirrors(e.any, env, menv, e.first, vs[0], first, rest);
      RestRepresents(vs[1..], rest);
      BindMirrors([Binding(e.first, vs[0])] + env, menv'[1..], e.rest, Value.List(vs[1..]), Lazy.List(rest));
      assert menv' == [menv'[0]] + menv'[1..];
      var env' := [Binding(e.rest, Value.List(vs[1..])), Binding(e.first, vs[0])] + env;
      assert env' == [Binding(e.rest, Value.List(vs[1..]))] + ([Binding(e.first, vs[0])] + env);
      var h;
      h, m := Simulates(n, env', menv', e.then_);
      k := Max(i, Max(j, h));
      Grow(h, k, menv', Compile(e.then_), m);
    }
    Grow(i, k, menv, Compile(e.list), list);
    UnrolledLater(vs, node, j, k);
    EvalsIfList(k, menv, e.any, Compile(e.list), e.first, e.rest, Compile(e.then_), Compile(e.otherwise), node);
  }

  lemma RestRepresents(vs: seq<Value>, node: Lazy.Node)
    requires Unrolls(vs, node)
    ensures Represents(Value.List(vs), Lazy.List(node))
  {
  }

  // ----- Comprehensions -----

  lemma {:induction false} SimulatesListComprehension(n: nat, env: Environment, menv: Lazy.Environment, e: Expression)
    returns (k: nat, m: Lazy.Value)
    requires e.ListComprehension? && Mirrors(env, menv) && WellNamed(e) && Eval(n, env, e).Some?
    ensures Lazy.Eval(k, menv, Compile(e)) == Some(m) && Represents(Eval(n, env, e).value, m)
    decreases 2 * n + 1, e, 0
  {
    hide Mirrors, Lazy.Eval, Lazy.Apply, CompileLoop, ListBody;
    var body, start := ListBody(e.any, Compile(e.element), e.name), Compile(e.list);
    var menv1, menv2 := StartScopes(env, menv, LIST_NAME, body, start);
    var i, list := Simulates(n, env, menv2, e.list);
    var vs := Eval(n, env, e.list).value.elements;
    assert Unrolls(vs, list.node);
    hide Represents;
    var j, node := ListLoopUnrolls(env, menv1, e.any, e.element, e.name, vs, list.node);
    LoopUnrolls(Mapped(env, e.element, e.name, vs), i, j, menv, LIST_NAME, body, start, list, node);
    EvalsLoop(0, menv, LIST_NAME, body, start);
    k, m := 0, Lazy.List(Lazy.Forced(OuterLoop(LIST_NAME, body, start, menv)));
    RestRepresents(Mapped(env, e.element, e.name, vs), m.node);
  }

  lemma StartScopes(env: Environment, menv: Lazy.Environment, argument: string, body: Lazy.Code, start: Lazy.Code)
    returns (menv1: Lazy.Environment, menv2: Lazy.Environment)
    requires Mirrors(env, menv)
    ensures menv1 == [Lazy.Binding(LOOP_NAME, OuterLoop(argument, body, start, menv))] + menv
    ensures menv2 == StartEnvironment(argument, body, start, menv)
    ensures Mirrors(env, menv1) && Mirrors(env, menv2)
  {
    hide Mirrors;
    menv1 := [Lazy.Binding(LOOP_NAME, OuterLoop(argument, body, start, menv))] + menv;
    menv2 := StartEnvironment(argument, body, start, menv);
    GeneratedMirrors(env, menv, LOOP_NAME, OuterLoop(argument, body, start, menv));
    GeneratedMirrors(env, menv1, LOOP_NAME, InnerLoop(argument, body, menv1));
  }

  /** A loop is a list of what its inner function returns for its start. */
  lemma LoopUnrolls(es: seq<Value>, i: nat, j: nat, menv: Lazy.Environment, argument: string, body: Lazy.Code, start: Lazy.Code,
                    m: Lazy.Value, node: Lazy.Node)
    requires Lazy.Eval(i, StartEnvironment(argument, body, start, menv), start) == Some(m)
    requires var menv' := [Lazy.Binding(LOOP_NAME, OuterLoop(argument, body, start, menv))] + menv;
             Lazy.Apply(j, InnerLoop(argument, body, menv'), [m]) == Some(Lazy.List(node))
    requires Unrolls(es, node)
    ensures Unrolls(es, Lazy.Forced(OuterLoop(argument, body, start, menv)))
  {
    hide Lazy.Eval, Lazy.Apply, Unrolls;
    var h := Max(i, j);
    var menv' := [Lazy.Binding(LOOP_NAME, OuterLoop(argument, body, start, menv))] + menv;
    Grow(i, h, StartEnvironment(argument, body, start, menv), start, m);
    Lazy.ApplyGrows(j, h, InnerLoop(argument, body, menv'), [m]);
    StartsLoop(h, menv, argument, body, start, m);
    ForcedUnrolls(es, OuterLoop(argument, body, start, menv), h + 1, node);
  }

  lemma {:induction false} SimulatesMapComprehension(n: nat, env: Environment, menv: Lazy.Environment, e: Expression)
    returns (k: nat, m: Lazy.Value)
    requires e.MapComprehension? && Mirrors(env, menv) && WellNamed(e) && Eval(n, env, e).Some?
    ensures Lazy.Eval(k, menv, Compile(e)) == Some(m) && Represents(Eval(n, env, e).value, m)
    decreases 2 * n + 1, e, 0
  {
    hide Mirrors, Lazy.Eval, Lazy.Apply, CompileLoop, MapBody, CallPrelude;
    var body := MapBody(Compile(e.element), e.key, e.value);
    var start := CallPrelude(Lazy.IterateMap, [Compile(e.map_)]);
    var menv1, menv2 := StartScopes(env, menv, ITERATOR_NAME, body, start);
    var i, map_ := Simulates(n, env, menv2, e.map_);
    var entries := Eval(n, env, e.map_).value.entries;
    assert EntriesRepresent(entries, map_.entries);
    hide Represents;
    EvalsOne(i, menv2, Compile(e.map_));
    EvalsPrelude(i, menv2, Lazy.IterateMap, [Compile(e.map_)]);
    assert Lazy.Eval(i, menv2, start) == Some(IteratorOf(map_.entries));
    var j, node := MapLoopUnrolls(env, menv1, e.element, e.key, e.value, entries, map_.entries);
    LoopUnrolls(MappedEntries(env, e.element, e.key, e.value, entries), i, j, menv, ITERATOR_NAME, body, start, IteratorOf(map_.entries), node);
    EvalsLoop(0, menv, ITERATOR_NAME, body, start);
    k, m := 0, Lazy.List(Lazy.Forced(OuterLoop(ITERATOR_NAME, body, start, menv)));
    RestRepresents(MappedEntries(env, e.element, e.key, e.value, entries), m.node);
  }

  // ----- All expressions -----

  lemma SimulatesSimple(n: nat, env: Environment, menv: Lazy.Environment, e: Expression) returns (k: nat, m: Lazy.Value)
    requires e.Number? || e.Variable? || e.Lambda?
    requires Mirrors(env, menv) && WellNamed(e) && Eval(n, env, e).Some?
    ensures Lazy.Eval(k, menv, Compile(e)) == Some(m) && Represents(Eval(n, env, e).value, m)
  {
    k := 0;
    match e
    case Number(x) => m := Lazy.Value.Number(x);
    case Variable(name) =>
      hide Mirrors, Represents;
      LookupMirrored(env, menv, name);
      m := Lazy.Lookup(menv, name).value;
    case Lambda(arguments, body) =>
      hide Mirrors;
      EvalsFunction(0, menv, CLOSURE_NAME, arguments, Compile(body));
      m := Lazy.Closure(CLOSURE_NAME, arguments, Compile(body), menv);
  }

  /**
   Whenever an expression has a value, its code has a representation of that value.  Generated
   names, which nested loops share, are harmless.
   */
  lemma {:induction false} Simulates(n: nat, env: Environment, menv: Lazy.Environment, e: Expression) returns (k: nat,
                      m: Lazy.Value)
    requires Mirrors(env, menv) && WellNamed(e) && Eval(n, env, e).Some?
    ensures Lazy.Eval(k, menv, Compile(e)) == Some(m) && Represents(Eval(n, env, e).value, m)
    decreases 2 * n + 1, e, 1
  {
    hide Lazy.Eval, Mirrors;
    match e
    case Number(_) => k, m := SimulatesSimple(n, env, menv, e);
    case Add(_, _) => k, m := SimulatesAdd(n, env, menv, e);
    case Variable(_) => k, m := SimulatesSimple(n, env, menv, e);
    case Let(_, _, _) => k, m := SimulatesLet(n, env, menv, e);
    case Lambda(_, _) => k, m := SimulatesSimple(n, env, menv, e);
    case Call(_, _) => k, m := SimulatesCall(n, env, menv, e);
    case List(elements) =>
      var node;
      k, node := SimulatesElements(n, env, menv, elements);
      m := Lazy.List(node);
      RestRepresents(EvalElements(n, env, elements).value, node);
    case IfList(_, _, _, _, _, _) => k, m := SimulatesIfList(n, env, menv, e);
    case ListComprehension(_, _, _, _) => k, m := SimulatesListComprehension(n, env, menv, e);
    case MapComprehension(_, _, _, _) => k, m := SimulatesMapComprehension(n, env, menv, e);
  }

  // ----- Forced results -----

  /** Computes a whole list of numbers: all its nodes, and all its elements. */
  function ForceAll(n: nat, node: Lazy.Node): Option<seq<int>> {
    if n == 0 then None
    else
      match Lazy.Unfold(n, node)
      case None => None
      case Some(End) => Some([])
      case Some(More(first, rest)) =>
        match (Lazy.Apply(n, first, []), ForceAll(n - 1, rest))
        case (Some(Number(x)), Some(xs)) => Some([x] + xs)
        case _ => None
  }

  /** Computes only one element, and the nodes before it. */
  function ForceNth(n: nat, node: Lazy.Node, i: nat): Option<Lazy.Value>
    decreases i
  {
    match Lazy.Unfold(n, node)
    case Some(More(first, rest)) => if i == 0 then Lazy.Apply(n, first, []) else ForceNth(n, rest, i - 1)
    case _ => None
  }

  lemma {:induction false} ForceAllGrows(n: nat, m: nat, node: Lazy.Node)
    requires n <= m
    ensures Lazy.Grows(ForceAll(n, node), ForceAll(m, node))
  {
    hide Lazy.Unfold, Lazy.Apply;
    if n > 0 {
      Lazy.UnfoldGrows(n, m, node);
      if Lazy.Unfold(n, node).Some? && Lazy.Unfold(n, node).value.More? {
        var r := Lazy.Unfold(n, node).value;
        Lazy.ApplyGrows(n, m, r.first, []);
        ForceAllGrows(n - 1, m - 1, r.rest);
      }
    }
  }

  lemma {:induction false} ForceNthGrows(n: nat, m: nat, node: Lazy.Node, i: nat)
    requires n <= m
    ensures Lazy.Grows(ForceNth(n, node, i), ForceNth(m, node, i))
    decreases i
  {
    hide Lazy.Unfold, Lazy.Apply;
    Lazy.UnfoldGrows(n, m, node);
    if Lazy.Unfold(n, node).Some? && Lazy.Unfold(n, node).value.More? {
      var r := Lazy.Unfold(n, node).value;
      Lazy.ApplyGrows(n, m, r.first, []);
      if i > 0 {
        ForceNthGrows(n, m, r.rest, i - 1);
      }
    }
  }

  lemma {:induction false} UnrolledForces(n: nat, es: seq<Value>, xs: seq<int>, node: Lazy.Node) returns (k: nat)
    requires Unrolls(es, node) && |xs| == |es|
    requires forall i :: 0 <= i < |es| ==> Apply(n, es[i], []) == Some(Value.Number(xs[i]))
    ensures ForceAll(k, node) == Some(xs)
    decreases |es|
  {
    hide Represents, Lazy.Unfold, Lazy.Apply, Apply;
    var j := UnrollsAt(es, node);
    if es == [] {
      k := j + 1;
      UnrolledLater(es, node, j, k);
      assert ForceAll(k, node) == Some([]) && xs == [];
    } else {
      var r := Lazy.Unfold(j, node).value;
      var h, x := SimulatesApply(n, es[0], r.first, [], []);
      NumberForm(xs[0], x);
      var i := UnrolledForces(n, es[1..], xs[1..], r.rest);
      var t := Max(i, Max(j, h));
      k := t + 1;
      UnrolledLater(es, node, j, k);
      Lazy.ApplyGrows(h, k, r.first, []);
      ForceAllGrows(i, t, r.rest);
      assert xs == [xs[0]] + xs[1..];
    }
  }

  lemma NumberForm(x: int, m: Lazy.Value)
    requires Represents(Value.Number(x), m)
    ensures m == Lazy.Value.Number(x)
  {
  }

  lemma {:induction false} UnrolledNth(n: nat, es: seq<Value>, node: Lazy.Node, i: nat) returns (k: nat, m: Lazy.Value)
    requires Unrolls(es, node) && i < |es| && Apply(n, es[i], []).Some?
    ensures ForceNth(k, node, i) == Some(m) && Represents(Apply(n, es[i], []).value, m)
    decreases i
  {
    hide Represents, Lazy.Unfold, Lazy.Apply, Apply;
    var j := UnrollsAt(es, node);
    var r := Lazy.Unfold(j, node).value;
    var h;
    if i == 0 {
      h, m := SimulatesApply(n, es[0], r.first, [], []);
      k := Max(j, h);
      Lazy.ApplyGrows(h, k, r.first, []);
    } else {
      h, m := UnrolledNth(n, es[1..], r.rest, i - 1);
      k := Max(j, h);
      ForceNthGrows(h, k, r.rest, i - 1);
    }
    UnrolledLater(es, node, j, k);
  }

  /** A compiled list comprehension, once forced, is its element expression mapped over its list in order. */
  lemma ComprehensionMaps(n: nat, env: Environment, menv: Lazy.Environment, e: Expression, vs: seq<Value>, xs: seq<int>)
    returns (k: nat, node: Lazy.Node)
    requires e.ListComprehension? && Mirrors(env, menv) && WellNamed(e) && |xs| == |vs|
    requires Eval(n, env, e.list) == Some(Value.List(vs))
    requires forall i :: 0 <= i < |vs| ==> Eval(n, [Binding(e.name, vs[i])] + env, e.element) == Some(Value.Number(xs[i]))
    ensures Lazy.Eval(k, menv, Compile(e)) == Some(Lazy.List(node)) && ForceAll(k, node) == Some(xs)
  {
    hide Mirrors, Lazy.Eval, Compile, WellNamed;
    var i, m := Simulates(n, env, menv, e);
    node := m.node;
    var es := Mapped(env, e.element, e.name, vs);
    forall j | 0 <= j < |es| ensures Apply(n + 1, es[j], []) == Some(Value.Number(xs[j])) {
      AppliesDelayed(n, es[j]);
    }
    assert Unrolls(es, node);
    var j := UnrolledForces(n + 1, es, xs, node);
    k := Max(i, j);
    Grow(i, k, menv, Compile(e), m);
    ForceAllGrows(j, k, node);
  }

  lemma AppliesDelayed(n: nat, f: Value)
    requires IsDelayed(f)
    ensures Apply(n + 1, f, []) == Eval(n, f.environment, f.body)
  {
  }

  /** A compiled iteration over a map, once forced, is its element expression mapped over the entries in order. */
  lemma IterationMaps(n: nat, env: Environment, menv: Lazy.Environment, e: Expression, entries: seq<Entry>, xs: seq<int>)
    returns (k: nat, node: Lazy.Node)
    requires e.MapComprehension? && Mirrors(env, menv) && WellNamed(e) && |xs| == |entries|
    requires Eval(n, env, e.map_) == Some(Value.Map(entries))
    requires forall i :: 0 <= i < |entries| ==>
      Eval(n, [Binding(e.value, entries[i].value), Binding(e.key, entries[i].key)] + env, e.element) == Some(Value.Number(xs[i]))
    ensures Lazy.Eval(k, menv, Compile(e)) == Some(Lazy.List(node)) && ForceAll(k, node) == Some(xs)
  {
    hide Mirrors, Lazy.Eval, Compile, WellNamed;
    var i, m := Simulates(n, env, menv, e);
    node := m.node;
    var es := MappedEntries(env, e.element, e.key, e.value, entries);
    forall j | 0 <= j < |es| ensures Apply(n + 1, es[j], []) == Some(Value.Number(xs[j])) {
      AppliesDelayed(n, es[j]);
    }
    assert Unrolls(es, node);
    var j := UnrolledForces(n + 1, es, xs, node);
    k := Max(i, j);
    Grow(i, k, menv, Compile(e), m);
    ForceAllGrows(j, k, node);
  }

  /** Comprehensions are lazy: an element can be computed although other elements cannot. */
  lemma ComprehensionIsLazy(n: nat, env: Environment, menv: Lazy.Environment, e: Expression, vs: seq<Value>, i: nat)
    returns (k: nat, node: Lazy.Node, m: Lazy.Value)
    requires e.ListComprehension? && Mirrors(env, menv) && WellNamed(e) && i < |vs|
    requires Eval(n, env, e.list) == Some(Value.List(vs))
    requires Eval(n, [Binding(e.name, vs[i])] + env, e.element).Some?
    ensures Lazy.Eval(k, menv, Compile(e)) == Some(Lazy.List(node)) && ForceNth(k, node, i) == Some(m)
    ensures Represents(Eval(n, [Binding(e.name, vs[i])] + env, e.element).value, m)
  {
    hide Mirrors, Lazy.Eval, Compile, WellNamed;
    var h, list := Simulates(n, env, menv, e);
    node := list.node;
    var es := Mapped(env, e.element, e.name, vs);
    AppliesDelayed(n, es[i]);
    assert Unrolls(es, node);
    hide Represents;
    var j;
    j, m := UnrolledNth(n + 1, es, node, i);
    k := Max(h, j);
    Grow(h, k, menv, Compile(e), list);
    ForceNthGrows(j, k, node, i);
  }

  // ----- Nothing else -----

  /** A compiled list unfolds to the elements of the source and to nothing else, however it is unfolded. */
  lemma {:induction false} UnrollsOnly(es: seq<Value>, node: Lazy.Node, n: nat)
    requires Unrolls(es, node) && Lazy.Unfold(n, node).Some?
    ensures Unrolled(es, Lazy.Unfold(n, node))
  {
    hide Represents;
    var k := UnrollsAt(es, node);
    Lazy.UnfoldGrows(k, Max(k, n), node);
    Lazy.UnfoldGrows(n, Max(k, n), node);
  }

  /** Whatever elements a compiled list is forced to, there are as many as in the source, in the same order. */
  lemma {:induction false} ForcesOnly(es: seq<Value>, node: Lazy.Node, n: nat)
    requires Unrolls(es, node) && ForceAll(n, node).Some?
    ensures |ForceAll(n, node).value| == |es|
    decreases n
  {
    hide Represents, Lazy.Unfold, Lazy.Apply;
    UnrollsOnly(es, node, n);
    if es != [] {
      ForcesOnly(es[1..], Lazy.Unfold(n, node).value.rest, n - 1);
    }
  }

  /** An element that a compiled list is forced to is at a position of the source. */
  lemma {:induction false} ForcesWithin(es: seq<Value>, node: Lazy.Node, n: nat, i: nat)
    requires Unrolls(es, node) && ForceNth(n, node, i).Some?
    ensures i < |es|
    decreases i
  {
    hide Represents, Lazy.Unfold, Lazy.Apply;
    UnrollsOnly(es, node, n);
    if i > 0 {
      ForcesWithin(es[1..], Lazy.Unfold(n, node).value.rest, n, i - 1);
    }
  }

  /** Forcing an element of which the source has a value gives a representation of that value, however often it is forced. */
  lemma ForcesValue(n: nat, es: seq<Value>, node: Lazy.Node, i: nat, k: nat)
    requires Unrolls(es, node) && i < |es| && Apply(n, es[i], []).Some? && ForceNth(k, node, i).Some?
    ensures Represents(Apply(n, es[i], []).value, ForceNth(k, node, i).value)
  {
    hide Represents, Apply;
    var j, m := UnrolledNth(n, es, node, i);
    ForceNthGrows(j, Max(j, k), node, i);
    ForceNthGrows(k, Max(j, k), node, i);
  }
}
