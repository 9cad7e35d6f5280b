/** Compiled comprehensions are lazy lists of the right elements in the right order. */
module ComprehensionTheorems {
  import opened Sums
  import Semantics
  import Lazy = LazyLists
  import opened Comprehensions

  // ----- Representation -----

  /** How values are represented.  Downcast elements of lists are functions that call elements. */
  ghost predicate Represents(v: Value, m: Lazy.Value)
    decreases v, m, 1
  {
    match v
    case Number(x) => m == Lazy.Value.Number(x)
    case Closure(arguments, body, env) =>
      && m.Closure? && !Semantics.IsUserName(m.self) && m.arguments == arguments
      && ((AllUserNames(arguments) && WellNamed(body) && m.body == Compile(body) && Mirrors(env, m.environment))
          || (arguments == [] && m.environment != [] && Semantics.IsUserName(m.environment[0].name)
              && m.body == Lazy.Code.Call(Lazy.Code.Variable(m.environment[0].name), [])
              && Represents(v, m.environment[0].value)))
    case List(es) => m.List? && Unrolls(es, m.node)
    case Map(entries) => m.Map? && EntriesRepresent(entries, m.entries)
  }

  ghost predicate EntriesRepresent(entries: seq<Entry>, mentries: seq<Lazy.Entry>)
    decreases entries
  {
    |mentries| == |entries| && forall i :: 0 <= i < |entries| ==> EntryRepresents(entries[i], mentries[i])
  }

  ghost predicate EntryRepresents(entry: Entry, mentry: Lazy.Entry)
    decreases entry
  {
    match entry
    case Entry(key, value) => Represents(key, mentry.key) && Represents(value, mentry.value)
  }

  predicate IsDelayed(v: Value) {
    v.Closure? && v.arguments == []
  }

  /** A node is unfolded, with enough calls, to exactly these elements. */
  ghost predicate Unrolls(es: seq<Value>, node: Lazy.Node)
    decreases es, 1
  {
    exists n: nat :: Unrolled(es, Lazy.Unfold(n, node))
  }

  ghost predicate Unrolled(es: seq<Value>, r: Option<Lazy.Unfolded>)
    decreases es, 0
  {
    match r
    case None => false
    case Some(End) => es == []
    case Some(More(first, rest)) => es != [] && IsDelayed(es[0]) && Represents(es[0], first) && Unrolls(es[1..], rest)
  }

  /** Variables are mirrored; variables of generated names may be added freely. */
  ghost predicate Mirrors(env: Environment, menv: Lazy.Environment)
    decreases env
  {
    forall i :: 0 <= i < |env| && IsVisible(env, env[i]) ==> MirrorsBinding(env[i], menv)
  }

  predicate IsVisible(env: Environment, b: Binding) {
    Lookup(env, b.name) == Some(b.value)
  }

  ghost predicate MirrorsBinding(b: Binding, menv: Lazy.Environment)
    decreases b
  {
    match b
    case Binding(name, value) =>
      && Semantics.IsUserName(name) && Lazy.Lookup(menv, name).Some?
      && Represents(value, Lazy.Lookup(menv, name).value)
  }

  ghost predicate RepresentsAll(vs: seq<Value>, ms: seq<Lazy.Value>) {
    |vs| == |ms| && forall i :: 0 <= i < |vs| ==> Represents(vs[i], ms[i])
  }

  // ----- Environments -----

  lemma {:induction false} LookupFinds(env: Environment, name: string)
    requires Lookup(env, name).Some?
    ensures exists i :: 0 <= i < |env| && env[i] == Binding(name, Lookup(env, name).value)
  {
    if env[0].name == name {
      assert env[0] == Binding(name, env[0].value);
    } else {
      LookupFinds(env[1..], name);
      var i :| 0 <= i < |env[1..]| && env[1..][i] == Binding(name, Lookup(env, name).value);
      assert env[i + 1] == env[1..][i];
    }
  }

  lemma LookupMirrored(env: Environment, menv: Lazy.Environment, name: string)
    requires Mirrors(env, menv) && Lookup(env, name).Some?
    ensures Lazy.Lookup(menv, name).Some? && Represents(Lookup(env, name).value, Lazy.Lookup(menv, name).value)
  {
    LookupFinds(env, name);
    var i :| 0 <= i < |env| && env[i] == Binding(name, Lookup(env, name).value);
    assert IsVisible(env, env[i]);
    assert MirrorsBinding(env[i], menv);
  }

  lemma BindMirrors(env: Environment, menv: Lazy.Environment, name: string, v: Value, m: Lazy.Value)
    requires Mirrors(env, menv) && Semantics.IsUserName(name) && Represents(v, m)
    ensures Mirrors([Binding(name, v)] + env, [Lazy.Binding(name, m)] + menv)
  {
    hide Represents;
    var env', menv' := [Binding(name, v)] + env, [Lazy.Binding(name, m)] + menv;
    assert env'[1..] == env && menv'[1..] == menv;
    forall i | 0 <= i < |env'| && IsVisible(env', env'[i]) ensures MirrorsBinding(env'[i], menv') {
      if env'[i].name == name {
        assert env'[i] == Binding(name, v);
      } else {
        assert env'[i] == env[i - 1] && IsVisible(env, env[i - 1]);
        assert MirrorsBinding(env[i - 1], menv);
      }
    }
  }

  lemma GeneratedMirrors(env: Environment, menv: Lazy.Environment, name: string, m: Lazy.Value)
    requires Mirrors(env, menv) && !Semantics.IsUserName(name)
    ensures Mirrors(env, [Lazy.Binding(name, m)] + menv)
  {
    hide Represents;
    var menv' := [Lazy.Binding(name, m)] + menv;
    assert menv'[1..] == menv;
    forall i | 0 <= i < |env| && IsVisible(env, env[i]) ensures MirrorsBinding(env[i], menv') {
      assert MirrorsBinding(env[i], menv);
    }
  }

  lemma {:induction false} BindAllMirrors(env: Environment, menv: Lazy.Environment, names: seq<string>, vs: seq<Value>,
                      ms: seq<Lazy.Value>)
    requires Mirrors(env, menv) && AllUserNames(names) && RepresentsAll(vs, ms) && |names| == |vs|
    ensures Mirrors(BindAll(env, names, vs), Lazy.BindAll(menv, names, ms))
    decreases |names|
  {
    hide Represents, Mirrors;
    if names != [] {
      BindMirrors(env, menv, names[0], vs[0], ms[0]);
      forall i | 0 <= i < |vs[1..]| ensures Represents(vs[1..][i], ms[1..][i]) {
        assert Represents(vs[i + 1], ms[i + 1]);
      }
      BindAllMirrors([Binding(names[0], vs[0])] + env, [Lazy.Binding(names[0], ms[0])] + menv, names[1..], vs[1..], ms[1..]);
    }
  }

  // ----- Nodes -----

  function Max(a: nat, b: nat): (m: nat)
    ensures a <= m && b <= m
  {
    if a < b then b else a
  }

  lemma UnrollsAt(es: seq<Value>, node: Lazy.Node) returns (n: nat)
    requires Unrolls(es, node)
    ensures Unrolled(es, Lazy.Unfold(n, node))
  {
    n :| Unrolled(es, Lazy.Unfold(n, node));
  }

  lemma UnrolledLater(es: seq<Value>, node: Lazy.Node, n: nat, m: nat)
    requires n <= m && Unrolled(es, Lazy.Unfold(n, node))
    ensures Lazy.Unfold(m, node) == Lazy.Unfold(n, node)
  {
    Lazy.UnfoldGrows(n, m, node);
  }

  lemma EmptyUnrolls()
    ensures Unrolls([], Lazy.Empty)
  {
    assert Unrolled([], Lazy.Unfold(1, Lazy.Empty));
  }

  lemma PrependedUnrolls(v: Value, es: seq<Value>, m: Lazy.Value, node: Lazy.Node)
    requires IsDelayed(v) && Represents(v, m) && Unrolls(es, node)
    ensures Unrolls([v] + es, Lazy.Prepended(m, node))
  {
    hide Represents;
    assert ([v] + es)[1..] == es;
    assert Unrolled([v] + es, Lazy.Unfold(1, Lazy.Prepended(m, node)));
  }

  lemma ForcedUnrolls(es: seq<Value>, x: Lazy.Value, k: nat, node: Lazy.Node)
    requires Lazy.Apply(k, x, []) == Some(Lazy.List(node)) && Unrolls(es, node)
    ensures Unrolls(es, Lazy.Forced(x))
  {
    hide Represents, Lazy.Apply;
    var n := UnrollsAt(es, node);
    var t := Max(k, n);
    Lazy.ApplyGrows(k, t, x, []);
    UnrolledLater(es, node, n, t);
    assert Lazy.Unfold(t + 1, Lazy.Forced(x)) == Lazy.Unfold(t, node);
    assert Unrolled(es, Lazy.Unfold(t + 1, Lazy.Forced(x)));
  }

  lemma {:induction false} ChainUnrolls(vs: seq<Value>, ws: seq<Value>, a: Lazy.Node, b: Lazy.Node) returns (n: nat)
    requires Unrolls(vs, a) && Unrolls(ws, b)
    ensures Unrolled(vs + ws, Lazy.UnfoldChain(n, a, b))
    ensures Unrolls(vs + ws, Lazy.Chained(a, b))
    decreases |vs|
  {
    hide Represents;
    var i := UnrollsAt(vs, a);
    var j := UnrollsAt(ws, b);
    n := Max(i, j);
    UnrolledLater(vs, a, i, n);
    UnrolledLater(ws, b, j, n);
    if vs == [] {
      assert vs + ws == ws;
    } else {
      var rest := Lazy.Unfold(n, a).value.rest;
      var _ := ChainUnrolls(vs[1..], ws, rest, b);
      assert (vs + ws)[1..] == vs[1..] + ws && (vs + ws)[0] == vs[0];
    }
    assert Lazy.Unfold(n + 1, Lazy.Chained(a, b)) == Lazy.UnfoldChain(n, a, b);
    assert Unrolled(vs + ws, Lazy.Unfold(n + 1, Lazy.Chained(a, b)));
  }

  lemma ConcatenatedUnrolls(vs: seq<Value>, ws: seq<Value>, x: Lazy.Value, k: nat, a: Lazy.Node, b: Lazy.Node)
    requires Lazy.Apply(k, x, []) == Some(Lazy.List(a)) && Unrolls(vs, a) && Unrolls(ws, b)
    ensures Unrolls(vs + ws, Lazy.Concatenated(x, b))
  {
    hide Represents, Lazy.Apply;
    var n := ChainUnrolls(vs, ws, a, b);
    var t := Max(k, n);
    Lazy.ApplyGrows(k, t, x, []);
    Lazy.UnfoldChainGrows(n, t, a, b);
    assert Lazy.Unfold(t + 1, Lazy.Concatenated(x, b)) == Lazy.UnfoldChain(t, a, b);
    assert Unrolled(vs + ws, Lazy.Unfold(t + 1, Lazy.Concatenated(x, b)));
  }

  // ----- Generated code -----

  function ThunkOf(e: Lazy.Code, menv: Lazy.Environment): Lazy.Value {
    Lazy.Closure(THUNK_NAME, [], e, menv)
  }

  lemma EvalsPrelude(n: nat, menv: Lazy.Environment, f: Lazy.Function, operands: seq<Lazy.Code>)
    ensures Lazy.Eval(n, menv, CallPrelude(f, operands)) ==
            match Lazy.EvalAll(n, menv, operands) case Some(vs) => Lazy.ApplyPrelude(n, f, vs) case None => None
  {
    assert Lazy.Eval(n, menv, Lazy.Code.Prelude(f)) == Some(Lazy.Value.Prelude(f));
  }

  lemma EvalsOne(n: nat, menv: Lazy.Environment, e: Lazy.Code)
    ensures Lazy.EvalAll(n, menv, [e]) == match Lazy.Eval(n, menv, e) case Some(v) => Some([v]) case None => None
  {
    assert [e][0] == e && [e][1..] == [];
    assert Lazy.EvalAll(n, menv, [e][1..]) == Some([]);
    if Lazy.Eval(n, menv, e).Some? {
      assert [Lazy.Eval(n, menv, e).value] + [] == [Lazy.Eval(n, menv, e).value];
    }
  }

  lemma EvalsTwo(n: nat, menv: Lazy.Environment, a: Lazy.Code, b: Lazy.Code)
    ensures Lazy.EvalAll(n, menv, [a, b]) ==
            match (Lazy.Eval(n, menv, a), Lazy.Eval(n, menv, b)) case (Some(v), Some(u)) => Some([v, u]) case _ => None
  {
    assert [a, b][0] == a && [a, b][1..] == [b];
    EvalsOne(n, menv, b);
    if Lazy.Eval(n, menv, a).Some? && Lazy.Eval(n, menv, b).Some? {
      var v, u := Lazy.Eval(n, menv, a).value, Lazy.Eval(n, menv, b).value;
      assert [v] + [u] == [v, u];
    }
  }

  lemma EvalsFunction(n: nat, menv: Lazy.Environment, name: string, arguments: seq<string>, body: Lazy.Code)
    ensures Lazy.Eval(n, menv, Lazy.LetRecursive(name, arguments, body, Lazy.Code.Variable(name)))
         == Some(Lazy.Closure(name, arguments, body, menv))
  {
    var menv' := [Lazy.Binding(name, Lazy.Closure(name, arguments, body, menv))] + menv;
    assert Lazy.Eval(n, menv', Lazy.Code.Variable(name)) == Lazy.Lookup(menv', name);
  }

  lemma EvalsStep(n: nat, menv: Lazy.Environment, element: Lazy.Code, rest: Lazy.Code)
    ensures Lazy.Eval(n, menv, CompileStep(element, rest))
         == Some(Lazy.List(Lazy.Prepended(ThunkOf(element, menv), Lazy.Forced(ThunkOf(rest, menv)))))
  {
    hide Lazy.Eval, Lazy.EvalAll;
    EvalsFunction(n, menv, THUNK_NAME, [], element);
    EvalsFunction(n, menv, THUNK_NAME, [], rest);
    EvalsOne(n, menv, Thunk(rest));
    EvalsPrelude(n, menv, Lazy.LazyList, [Thunk(rest)]);
    EvalsTwo(n, menv, Thunk(element), CallPrelude(Lazy.LazyList, [Thunk(rest)]));
    EvalsPrelude(n, menv, Lazy.PrependToList, [Thunk(element), CallPrelude(Lazy.LazyList, [Thunk(rest)])]);
  }

  lemma EvalsEmpty(n: nat, menv: Lazy.Environment)
    ensures Lazy.Eval(n, menv, CallPrelude(Lazy.EmptyList, [])) == Some(Lazy.List(Lazy.Empty))
  {
    EvalsPrelude(n, menv, Lazy.EmptyList, []);
  }

  /** What the name of a first element is bound to. */
  function FirstOf(any: bool, name: string, first: Lazy.Value, menv: Lazy.Environment): Lazy.Value {
    if any then first
    else
      Lazy.Closure(CLOSURE_NAME, [], Lazy.Code.Call(Lazy.Code.Variable(name), []), [Lazy.Binding(name, first)] + menv)
  }

  function Deconstructed(menv: Lazy.Environment, first: Lazy.Value, rest: Lazy.Node): Lazy.Environment {
    [Lazy.Binding(FIRST_REST_NAME, Lazy.FirstRest(first, rest))] + menv
  }

  function IfListEnvironment(any: bool, menv: Lazy.Environment, name: string, restName: string, first: Lazy.Value,
                      rest: Lazy.Node)
    : Lazy.Environment
  {
    var menv' := Deconstructed(menv, first, rest);
    [Lazy.Binding(restName, Lazy.List(rest))] + ([Lazy.Binding(name, FirstOf(any, name, first, menv'))] + menv')
  }

  lemma EvalsGet(n: nat, menv: Lazy.Environment, f: Lazy.Function, name: string)
    ensures Lazy.Eval(n, menv, CallPrelude(f, [Lazy.Code.Variable(name)])) ==
            match Lazy.Lookup(menv, name) case Some(v) => Lazy.ApplyPrelude(n, f, [v]) case None => None
  {
    hide Lazy.ApplyPrelude;
    EvalsOne(n, menv, Lazy.Code.Variable(name));
    EvalsPrelude(n, menv, f, [Lazy.Code.Variable(name)]);
  }

  lemma EvalsFirst(n: nat, menv: Lazy.Environment, any: bool, name: string, first: Lazy.Value, rest: Lazy.Node)
    ensures Lazy.Eval(n, Deconstructed(menv, first, rest), CompileFirst(any, name))
         == Some(FirstOf(any, name, first, Deconstructed(menv, first, rest)))
  {
    var menv' := Deconstructed(menv, first, rest);
    EvalsGet(n, menv', Lazy.GetFirst, FIRST_REST_NAME);
    if !any {
      EvalsFunction(n, [Lazy.Binding(name, first)] + menv', CLOSURE_NAME, [], Lazy.Code.Call(Lazy.Code.Variable(name), []));
    }
  }

  lemma EvalsIfList(n: nat, menv: Lazy.Environment, any: bool, list: Lazy.Code, name: string, restName: string,
                    then_: Lazy.Code, otherwise: Lazy.Code, node: Lazy.Node)
    requires Semantics.IsUserName(name) && Lazy.Eval(n, menv, list) == Some(Lazy.List(node))
    ensures Lazy.Eval(n, menv, CompileIfList(any, list, name, restName, then_, otherwise)) ==
            match Lazy.Unfold(n, node)
            case None => None
            case Some(End) => Lazy.Eval(n, [Lazy.Binding(FIRST_REST_NAME, Lazy.None_)] + menv, otherwise)
            case Some(More(first, rest)) => Lazy.Eval(n, IfListEnvironment(any, menv, name, restName, first, rest), then_)
  {
    hide Lazy.Unfold, CompileFirst, FirstOf, CallPrelude;
    var call := CallPrelude(Lazy.DeconstructList, [list]);
    EvalsOne(n, menv, list);
    EvalsPrelude(n, menv, Lazy.DeconstructList, [list]);
    if Lazy.Unfold(n, node).Some? && Lazy.Unfold(n, node).value.More? {
      var first, rest := Lazy.Unfold(n, node).value.first, Lazy.Unfold(n, node).value.rest;
      assert Lazy.Eval(n, menv, call) == Some(Lazy.FirstRest(first, rest));
      EvalsFirst(n, menv, any, name, first, rest);
      EvalsNames(n, menv, any, name, restName, first, rest, then_);
    }
  }

  lemma EvalsNames(n: nat, menv: Lazy.Environment, any: bool, name: string, restName: string,
                   first: Lazy.Value, rest: Lazy.Node, then_: Lazy.Code)
    requires Semantics.IsUserName(name)
    ensures Lazy.Eval(n, Deconstructed(menv, first, rest),
                      Lazy.Code.Let(name, CompileFirst(any, name),
                                    Lazy.Code.Let(restName, CallPrelude(Lazy.GetRest, [Lazy.Code.Variable(FIRST_REST_NAME)]), then_)))
         == Lazy.Eval(n, IfListEnvironment(any, menv, name, restName, first, rest), then_)
  {
    hide CompileFirst, FirstOf, CallPrelude;
    EvalsFirst(n, menv, any, name, first, rest);
    var menv' := Deconstructed(menv, first, rest);
    var menv'' := [Lazy.Binding(name, FirstOf(any, name, first, menv'))] + menv';
    assert menv''[1..] == menv' && Lazy.Lookup(menv'', FIRST_REST_NAME) == Some(Lazy.FirstRest(first, rest));
    EvalsGet(n, menv'', Lazy.GetRest, FIRST_REST_NAME);
  }

  // ----- Loops -----

  function OuterLoop(argument: string, body: Lazy.Code, start: Lazy.Code, menv: Lazy.Environment): Lazy.Value {
    Lazy.Closure(LOOP_NAME, [], Lazy.LetRecursive(LOOP_NAME, [argument], body, Lazy.Code.Call(Lazy.Code.Variable(LOOP_NAME), [start])), menv)
  }

  function InnerLoop(argument: string, body: Lazy.Code, menv: Lazy.Environment): Lazy.Value {
    Lazy.Closure(LOOP_NAME, [argument], body, menv)
  }

  /** The environment of the inner loop's body. */
  function LoopEnvironment(argument: string, body: Lazy.Code, menv: Lazy.Environment, m: Lazy.Value): Lazy.Environment {
    [Lazy.Binding(argument, m)] + ([Lazy.Binding(LOOP_NAME, InnerLoop(argument, body, menv))] + menv)
  }

  lemma AppliesLoop(n: nat, argument: string, body: Lazy.Code, menv: Lazy.Environment, m: Lazy.Value)
    ensures Lazy.Apply(n + 1, InnerLoop(argument, body, menv), [m]) == Lazy.Eval(n, LoopEnvironment(argument, body, menv, m), body)
  {
    hide Lazy.Eval;
    var f := InnerLoop(argument, body, menv);
    assert [m][1..] == [] && [argument][1..] == [];
    assert Lazy.BindAll([Lazy.Binding(LOOP_NAME, f)] + menv, [argument], [m]) == LoopEnvironment(argument, body, menv, m);
  }

  /** The code of a loop is a list that calls the outer function, and with it the inner one, when it is needed. */
  lemma EvalsLoop(n: nat, menv: Lazy.Environment, argument: string, body: Lazy.Code, start: Lazy.Code)
    ensures Lazy.Eval(n, menv, CompileLoop(argument, body, start)) == Some(Lazy.List(Lazy.Forced(OuterLoop(argument, body, start, menv))))
  {
    hide Lazy.Eval;
    var f := Lazy.LetRecursive(LOOP_NAME, [argument], body, Lazy.Code.Call(Lazy.Code.Variable(LOOP_NAME), [start]));
    EvalsFunction(n, menv, LOOP_NAME, [], f);
    EvalsOne(n, menv, Lazy.LetRecursive(LOOP_NAME, [], f, Lazy.Code.Variable(LOOP_NAME)));
    EvalsPrelude(n, menv, Lazy.LazyList, [Lazy.LetRecursive(LOOP_NAME, [], f, Lazy.Code.Variable(LOOP_NAME))]);
  }

  /** Where the start of a loop is evaluated: both loops are in scope, under the same name. */
  function StartEnvironment(argument: string, body: Lazy.Code, start: Lazy.Code, menv: Lazy.Environment): Lazy.Environment {
    var menv' := [Lazy.Binding(LOOP_NAME, OuterLoop(argument, body, start, menv))] + menv;
    [Lazy.Binding(LOOP_NAME, InnerLoop(argument, body, menv'))] + menv'
  }

  lemma StartsLoop(n: nat, menv: Lazy.Environment, argument: string, body: Lazy.Code, start: Lazy.Code, m: Lazy.Value)
    requires Lazy.Eval(n, StartEnvironment(argument, body, start, menv), start) == Some(m)
    ensures var menv' := [Lazy.Binding(LOOP_NAME, OuterLoop(argument, body, start, menv))] + menv;
            Lazy.Apply(n + 1, OuterLoop(argument, body, start, menv), []) == Lazy.Apply(n, InnerLoop(argument, body, menv'), [m])
  {
    hide Lazy.Apply;
    var outer := OuterLoop(argument, body, start, menv);
    var menv' := [Lazy.Binding(LOOP_NAME, outer)] + menv;
    var menv'' := StartEnvironment(argument, body, start, menv);
    var call := Lazy.Code.Call(Lazy.Code.Variable(LOOP_NAME), [start]);
    EvalsOne(n, menv'', start);
    assert Lazy.Eval(n, menv'', Lazy.Code.Variable(LOOP_NAME)) == Some(InnerLoop(argument, body, menv'));
    assert Lazy.Eval(n, menv'', call) == Lazy.Apply(n, InnerLoop(argument, body, menv'), [m]);
    assert Lazy.Eval(n, menv', outer.body) == Lazy.Eval(n, menv'', call);
    AppliesNullary(n, outer);
  }

  lemma AppliesNullary(n: nat, f: Lazy.Value)
    requires f.Closure? && f.arguments == []
    ensures Lazy.Apply(n + 1, f, []) == Lazy.Eval(n, [Lazy.Binding(f.self, f)] + f.environment, f.body)
  {
    hide Lazy.Eval;
  }

  /** The delayed elements of a comprehension are thunks of its element expression. */
  lemma ThunkRepresents(element: Expression, env: Environment, menv: Lazy.Environment)
    requires WellNamed(element) && Mirrors(env, menv)
    ensures Represents(Closure([], element, env), ThunkOf(Compile(element), menv))
  {
    hide Mirrors, Compile, WellNamed;
  }

  lemma FirstRepresents(any: bool, name: string, v: Value, first: Lazy.Value, menv: Lazy.Environment)
    requires IsDelayed(v) && Represents(v, first) && Semantics.IsUserName(name)
    ensures Represents(v, FirstOf(any, name, first, menv))
  {
    if !any {
      var m := FirstOf(any, name, first, menv);
      assert m.environment[0] == Lazy.Binding(name, first);
    }
  }

  /** Deconstruction binds the first element and the rest, whatever their names are. */
  lemma IfListMirrors(any: bool, env: Environment, menv: Lazy.Environment, name: string, v: Value, first: Lazy.Value,
                      rest: Lazy.Node)
    requires Mirrors(env, menv) && Semantics.IsUserName(name) && IsDelayed(v) && Represents(v, first)
    ensures var menv' := Deconstructed(menv, first, rest);
            Mirrors([Binding(name, v)] + env, [Lazy.Binding(name, FirstOf(any, name, first, menv'))] + menv')
  {
    hide Mirrors, Represents, FirstOf;
    GeneratedMirrors(env, menv, FIRST_REST_NAME, Lazy.FirstRest(first, rest));
    var menv' := Deconstructed(menv, first, rest);
    FirstRepresents(any, name, v, first, menv');
    BindMirrors(env, menv', name, v, FirstOf(any, name, first, menv'));
  }

  /** The loop of a list comprehension, from any suffix of the list on. */
  lemma {:induction false} ListLoopUnrolls(env: Environment, menv: Lazy.Environment, any: bool, element: Expression, name: string,
                        vs: seq<Value>, node: Lazy.Node)
    returns (k: nat, node': Lazy.Node)
    requires Mirrors(env, menv) && WellNamed(element) && Semantics.IsUserName(name) && Unrolls(vs, node)
    ensures Lazy.Apply(k, InnerLoop(LIST_NAME, ListBody(any, Compile(element), name), menv), [Lazy.List(node)]) == Some(Lazy.List(node'))
    ensures Unrolls(Mapped(env, element, name, vs), node')
    decreases |vs|
  {
    hide Lazy.Eval, Lazy.Apply, Lazy.Unfold, Compile, Represents, Mirrors, WellNamed, CompileIfList, CompileStep, CompileFirst, FirstOf;
    var code := Compile(element);
    var body := ListBody(any, code, name);
    var n := UnrollsAt(vs, node);
    var menv0 := LoopEnvironment(LIST_NAME, body, menv, Lazy.List(node));
    ListBodyEvals(n, menv, any, code, name, node);
    AppliesLoop(n, LIST_NAME, body, menv, Lazy.List(node));
    k := n + 1;
    if vs == [] {
      node' := Lazy.Empty;
      EmptyUnrolls();
      assert Mapped(env, element, name, vs) == [];
    } else {
      var first, rest := Lazy.Unfold(n, node).value.first, Lazy.Unfold(n, node).value.rest;
      var menv1 := IfListEnvironment(any, menv0, name, LIST_NAME, first, rest);
      var step := ThunkOf(LIST_STEP, menv1);
      node' := Lazy.Prepended(ThunkOf(code, menv1), Lazy.Forced(step));
      var i, rest' := ListLoopUnrolls(env, menv, any, element, name, vs[1..], rest);
      ListStepApplies(i, menv, any, code, name, node, first, rest);
      ForcedUnrolls(Mapped(env, element, name, vs[1..]), step, i + 1, rest');
      GeneratedMirrors(env, menv, LOOP_NAME, InnerLoop(LIST_NAME, body, menv));
      GeneratedMirrors(env, [Lazy.Binding(LOOP_NAME, InnerLoop(LIST_NAME, body, menv))] + menv, LIST_NAME, Lazy.List(node));
      IfListMirrors(any, env, menv0, name, vs[0], first, rest);
      GeneratedMirrors([Binding(name, vs[0])] + env, menv1[1..], LIST_NAME, Lazy.List(rest));
      assert menv1 == [menv1[0]] + menv1[1..];
      ThunkRepresents(element, [Binding(name, vs[0])] + env, menv1);
      PrependedUnrolls(Closure([], element, [Binding(name, vs[0])] + env), Mapped(env, element, name, vs[1..]),
                       ThunkOf(code, menv1), Lazy.Forced(step));
      assert Mapped(env, element, name, vs)
          == [Closure([], element, [Binding(name, vs[0])] + env)] + Mapped(env, element, name, vs[1..]);
    }
  }

  const LIST_STEP: Lazy.Code := Lazy.Code.Call(Lazy.Code.Variable(LOOP_NAME), [Lazy.Code.Variable(LIST_NAME)])

  lemma ListBodyEvals(n: nat, menv: Lazy.Environment, any: bool, code: Lazy.Code, name: string, node: Lazy.Node)
    requires Semantics.IsUserName(name)
    ensures var body := ListBody(any, code, name);
            var menv0 := LoopEnvironment(LIST_NAME, body, menv, Lazy.List(node));
            Lazy.Eval(n, menv0, body) ==
            match Lazy.Unfold(n, node)
            case None => None
            case Some(End) => Some(Lazy.List(Lazy.Empty))
            case Some(More(first, rest)) =>
              var menv1 := IfListEnvironment(any, menv0, name, LIST_NAME, first, rest);
              Some(Lazy.List(Lazy.Prepended(ThunkOf(code, menv1), Lazy.Forced(ThunkOf(LIST_STEP, menv1)))))
  {
    var body := ListBody(any, code, name);
    var menv0 := LoopEnvironment(LIST_NAME, body, menv, Lazy.List(node));
    assert Lazy.Eval(n, menv0, Lazy.Code.Variable(LIST_NAME)) == Some(Lazy.List(node));
    hide Lazy.Eval, Lazy.Unfold, CompileIfList, CompileStep, CallPrelude, LoopEnvironment;
    EvalsIfList(n, menv0, any, Lazy.Code.Variable(LIST_NAME), name, LIST_NAME, CompileStep(code, LIST_STEP), CallPrelude(Lazy.EmptyList, []), node);
    if Lazy.Unfold(n, node).Some? {
      if Lazy.Unfold(n, node).value.End? {
        EvalsEmpty(n, [Lazy.Binding(FIRST_REST_NAME, Lazy.None_)] + menv0);
      } else {
        var first, rest := Lazy.Unfold(n, node).value.first, Lazy.Unfold(n, node).value.rest;
        EvalsStep(n, IfListEnvironment(any, menv0, name, LIST_NAME, first, rest), code, LIST_STEP);
      }
    }
  }

  /** The next step of the loop calls the same inner function with the rest of the list, shadowed names notwithstanding. */
  lemma ListStepApplies(n: nat, menv: Lazy.Environment, any: bool, code: Lazy.Code, name: string, node: Lazy.Node,
                        first: Lazy.Value, rest: Lazy.Node)
    requires Semantics.IsUserName(name)
    ensures var body := ListBody(any, code, name);
            var menv1 := IfListEnvironment(any, LoopEnvironment(LIST_NAME, body, menv, Lazy.List(node)), name, LIST_NAME, first, rest);
            Lazy.Apply(n + 1, ThunkOf(LIST_STEP, menv1), []) ==
            Lazy.Apply(n, InnerLoop(LIST_NAME, body, menv), [Lazy.List(rest)])
  {
    hide Lazy.Apply, FirstOf;
    var body := ListBody(any, code, name);
    var menv0 := LoopEnvironment(LIST_NAME, body, menv, Lazy.List(node));
    var menv1 := IfListEnvironment(any, menv0, name, LIST_NAME, first, rest);
    var thunk := ThunkOf(LIST_STEP, menv1);
    var menv2 := [Lazy.Binding(THUNK_NAME, thunk)] + menv1;
    hide ListBody;
    assert menv2[1..] == menv1 && menv1[1..][1..][1..] == menv0;
    assert Lazy.Lookup(menv0, LOOP_NAME) == Some(InnerLoop(LIST_NAME, body, menv));
    assert Lazy.Lookup(menv1[1..][1..], LOOP_NAME) == Lazy.Lookup(menv0, LOOP_NAME);
    assert Lazy.Lookup(menv1[1..], LOOP_NAME) == Lazy.Lookup(menv1[1..][1..], LOOP_NAME);
    assert Lazy.Lookup(menv2, LOOP_NAME) == Some(InnerLoop(LIST_NAME, body, menv));
    assert Lazy.Lookup(menv2, LIST_NAME) == Some(Lazy.List(rest));
    EvalsOne(n, menv2, Lazy.Code.Variable(LIST_NAME));
    AppliesNullary(n, thunk);
  }

  // ----- Iteration over maps -----

  function IteratorOf(entries: seq<Lazy.Entry>): Lazy.Value {
    if entries == [] then Lazy.None_ else Lazy.Iterator(entries)
  }

  const MAP_STEP: Lazy.Code :=
    Lazy.Code.Call(Lazy.Code.Variable(LOOP_NAME), [CallPrelude(Lazy.IteratorRest, [Lazy.Code.Variable(ITERATOR_NAME)])])

  function IterationEnvironment(menv: Lazy.Environment, key: string, value: string, entries: seq<Lazy.Entry>): Lazy.Environment
    requires entries != []
  {
    [Lazy.Binding(value, entries[0].value)]
    + ([Lazy.Binding(key, entries[0].key)] + ([Lazy.Binding(ITERATOR_NAME, IteratorOf(entries))] + menv))
  }

  lemma EvalsIteration(n: nat, menv: Lazy.Environment, key: string, value: string, entries: seq<Lazy.Entry>, body: Lazy.Code)
    requires entries != [] && Semantics.IsUserName(key)
    ensures Lazy.Eval(n, [Lazy.Binding(ITERATOR_NAME, IteratorOf(entries))] + menv,
                      Lazy.Code.Let(key, CallPrelude(Lazy.IteratorKey, [Lazy.Code.Variable(ITERATOR_NAME)]),
                                    Lazy.Code.Let(value, CallPrelude(Lazy.IteratorValue, [Lazy.Code.Variable(ITERATOR_NAME)]), body)))
         == Lazy.Eval(n, IterationEnvironment(menv, key, value, entries), body)
  {
    hide CallPrelude;
    var menv0 := [Lazy.Binding(ITERATOR_NAME, IteratorOf(entries))] + menv;
    var menv1 := [Lazy.Binding(key, entries[0].key)] + menv0;
    assert menv1[1..] == menv0 && Lazy.Lookup(menv0, ITERATOR_NAME) == Some(IteratorOf(entries));
    assert Lazy.Lookup(menv1, ITERATOR_NAME) == Some(IteratorOf(entries));
    EvalsGet(n, menv0, Lazy.IteratorKey, ITERATOR_NAME);
    EvalsGet(n, menv1, Lazy.IteratorValue, ITERATOR_NAME);
  }

  lemma MapBodyEvals(n: nat, menv: Lazy.Environment, code: Lazy.Code, key: string, value: string, entries: seq<Lazy.Entry>)
    requires Semantics.IsUserName(key)
    ensures var body := MapBody(code, key, value);
            var menv0 := LoopEnvironment(ITERATOR_NAME, body, menv, IteratorOf(entries));
            Lazy.Eval(n, menv0, body) ==
            if entries == [] then Some(Lazy.List(Lazy.Empty))
            else
              var menv1 := IterationEnvironment(menv0, key, value, entries);
              Some(Lazy.List(Lazy.Prepended(ThunkOf(code, menv1), Lazy.Forced(ThunkOf(MAP_STEP, menv1)))))
  {
    var body := MapBody(code, key, value);
    var menv0 := LoopEnvironment(ITERATOR_NAME, body, menv, IteratorOf(entries));
    assert Lazy.Eval(n, menv0, Lazy.Code.Variable(ITERATOR_NAME)) == Some(IteratorOf(entries));
    hide CompileStep, CallPrelude, LoopEnvironment, IterationEnvironment;
    if entries == [] {
      EvalsEmpty(n, [Lazy.Binding(ITERATOR_NAME, Lazy.None_)] + menv0);
    } else {
      EvalsIteration(n, menv0, key, value, entries, CompileStep(code, MAP_STEP));
      EvalsStep(n, IterationEnvironment(menv0, key, value, entries), code, MAP_STEP);
    }
  }

  lemma MapStepApplies(n: nat, menv: Lazy.Environment, code: Lazy.Code, key: string, value: string, entries: seq<Lazy.Entry>)
    requires Semantics.IsUserName(key) && Semantics.IsUserName(value) && entries != []
    ensures var body := MapBody(code, key, value);
            var menv1 := IterationEnvironment(LoopEnvironment(ITERATOR_NAME, body, menv, IteratorOf(entries)), key, value, entries);
            Lazy.Apply(n + 1, ThunkOf(MAP_STEP, menv1), []) ==
            Lazy.Apply(n, InnerLoop(ITERATOR_NAME, body, menv), [IteratorOf(entries[1..])])
  {
    hide Lazy.Apply, CallPrelude;
    var body := MapBody(code, key, value);
    var menv0 := LoopEnvironment(ITERATOR_NAME, body, menv, IteratorOf(entries));
    var menv1 := IterationEnvironment(menv0, key, value, entries);
    var thunk := ThunkOf(MAP_STEP, menv1);
    var menv2 := [Lazy.Binding(THUNK_NAME, thunk)] + menv1;
    hide MapBody;
    assert menv2[1..] == menv1 && menv1[1..][1..][1..] == menv0;
    assert Lazy.Lookup(menv0, LOOP_NAME) == Some(InnerLoop(ITERATOR_NAME, body, menv));
    assert Lazy.Lookup(menv1[1..][1..], LOOP_NAME) == Lazy.Lookup(menv0, LOOP_NAME);
    assert Lazy.Lookup(menv1[1..], LOOP_NAME) == Lazy.Lookup(menv1[1..][1..], LOOP_NAME);
    assert Lazy.Lookup(menv2, LOOP_NAME) == Some(InnerLoop(ITERATOR_NAME, body, menv));
    assert Lazy.Lookup(menv1[1..], ITERATOR_NAME) == Lazy.Lookup(menv1[1..][1..], ITERATOR_NAME) == Some(IteratorOf(entries));
    assert Lazy.Lookup(menv2, ITERATOR_NAME) == Some(IteratorOf(entries));
    var rest := CallPrelude(Lazy.IteratorRest, [Lazy.Code.Variable(ITERATOR_NAME)]);
    EvalsGet(n, menv2, Lazy.IteratorRest, ITERATOR_NAME);
    assert Lazy.Eval(n, menv2, rest) == Some(IteratorOf(entries[1..]));
    EvalsOne(n, menv2, rest);
    AppliesNullary(n, thunk);
  }

  lemma IterationMirrors(env: Environment, menv: Lazy.Environment, key: string, value: string, entry: Entry,
                      entries: seq<Lazy.Entry>)
    requires Mirrors(env, menv) && Semantics.IsUserName(key) && Semantics.IsUserName(value)
    requires entries != [] && EntryRepresents(entry, entries[0])
    ensures Mirrors([Binding(value, entry.value), Binding(key, entry.key)] + env, IterationEnvironment(menv, key, value, entries))
  {
    assert Represents(entry.key, entries[0].key) && Represents(entry.value, entries[0].value);
    hide Mirrors, Represents;
    GeneratedMirrors(env, menv, ITERATOR_NAME, IteratorOf(entries));
    var menv0 := [Lazy.Binding(ITERATOR_NAME, IteratorOf(entries))] + menv;
    BindMirrors(env, menv0, key, entry.key, entries[0].key);
    BindMirrors([Binding(key, entry.key)] + env, [Lazy.Binding(key, entries[0].key)] + menv0, value, entry.value, entries[0].value);
    assert [Binding(value, entry.value), Binding(key, entry.key)] + env == [Binding(value, entry.value)] + ([Binding(key, entry.key)] + env);
  }

  /** The loop of an iteration over a map, from any entry on. */
  lemma {:induction false} MapLoopUnrolls(env: Environment, menv: Lazy.Environment, element: Expression, key: string,
                      value: string,
                       entries: seq<Entry>, mentries: seq<Lazy.Entry>)
    returns (k: nat, node: Lazy.Node)
    requires Mirrors(env, menv) && WellNamed(element) && Semantics.IsUserName(key) && Semantics.IsUserName(value)
    requires EntriesRepresent(entries, mentries)
    ensures Lazy.Apply(k, InnerLoop(ITERATOR_NAME, MapBody(Compile(element), key, value), menv), [IteratorOf(mentries)]) == Some(Lazy.List(node))
    ensures Unrolls(MappedEntries(env, element, key, value, entries), node)
    decreases |entries|
  {
    hide Lazy.Eval, Lazy.Apply, Lazy.Unfold, Compile, Represents, Mirrors, WellNamed, CompileStep, MapBody, IterationEnvironment;
    var code := Compile(element);
    var body := MapBody(code, key, value);
    var menv0 := LoopEnvironment(ITERATOR_NAME, body, menv, IteratorOf(mentries));
    MapBodyEvals(0, menv, code, key, value, mentries);
    AppliesLoop(0, ITERATOR_NAME, body, menv, IteratorOf(mentries));
    k := 1;
    if entries == [] {
      node := Lazy.Empty;
      EmptyUnrolls();
      assert MappedEntries(env, element, key, value, entries) == [];
    } else {
      var menv1 := IterationEnvironment(menv0, key, value, mentries);
      var step := ThunkOf(MAP_STEP, menv1);
      node := Lazy.Prepended(ThunkOf(code, menv1), Lazy.Forced(step));
      assert EntriesRepresent(entries[1..], mentries[1..]);
      assert EntryRepresents(entries[0], mentries[0]);
      var i, rest := MapLoopUnrolls(env, menv, element, key, value, entries[1..], mentries[1..]);
      MapStepApplies(i, menv, code, key, value, mentries);
      ForcedUnrolls(MappedEntries(env, element, key, value, entries[1..]), step, i + 1, rest);
      var menv' := [Lazy.Binding(LOOP_NAME, InnerLoop(ITERATOR_NAME, body, menv))] + menv;
      GeneratedMirrors(env, menv, LOOP_NAME, InnerLoop(ITERATOR_NAME, body, menv));
      GeneratedMirrors(env, menv', ITERATOR_NAME, IteratorOf(mentries));
      IterationMirrors(env, menv0, key, value, entries[0], mentries);
      var env' := [Binding(value, entries[0].value), Binding(key, entries[0].key)] + env;
      ThunkRepresents(element, env', menv1);
      PrependedUnrolls(Closure([], element, env'), MappedEntries(env, element, key, value, entries[1..]), ThunkOf(code, menv1), Lazy.Forced(step));
      assert MappedEntries(env, element, key, value, entries)
          == [Closure([], element, env')] + MappedEntries(env, element, key, value, entries[1..]);
    }
  }
}
