/** Lowering preserves meaning, by simulation of every kind of expression. */
module Simulation {
  import opened Sums
  import opened Semantics
  import opened Hir
  import opened HirTypes
  import opened Lowering
  import opened Representation
  import opened LoweringTheorems
  import Mir

  /** An expression has a type in an environment whose representation is given. */
  ghost predicate Ready(p: Program, env: Environment, menv: Mir.Environment, ret: Option<Type>, e: Expression, t: Type) {
    WellTyped(p) && Mirrors(p, env, menv) && Infer(p, TypesOf(env), ret, e) == Some(t)
  }

  function Lowered(w: World, p: Program, n: nat, menv: Mir.Environment, trace: Trace, e: Expression): Mir.Result {
    Mir.Eval(w, CompileProgram(p), n, menv, trace, Compile(p, e))
  }

  // ----- Variables -----

  lemma SimulatesVariable(w: World, p: Program, n: nat, env: Environment, menv: Mir.Environment, trace: Trace,
                          ret: Option<Type>, e: Expression, t: Type)
    requires Ready(p, env, menv, ret, e, t) && e.Variable?
    ensures Agree(p, t, ret, Eval(w, p, n, env, trace, e), Lowered(w, p, n, menv, trace, e))
  {
    hide Represents, RepresentsBare, MirrorsAll;
    LookupTypes(env, e.name);
    if Lookup(env, e.name).Some? {
      LookupMirrored(p, env, menv, e.name);
    } else {
      FindCompiled(p, p.functions, e.name);
      if FindDefinition(p.functions, e.name).Some? {
        var d := FindDefinition(p.functions, e.name).value;
        var i :| 0 <= i < |p.functions| && p.functions[i] == d;
        assert WellTypedDefinition(p, p.functions[i]);
        FunctionRepresents(p, d);
      } else {
        FindForeignCompiled(p.foreigns, e.name);
        ForeignRepresents(p, FindForeign(p.foreigns, e.name).value);
      }
    }
  }

  lemma SimulatesLambda(w: World, p: Program, n: nat, env: Environment, menv: Mir.Environment, trace: Trace,
                        ret: Option<Type>, e: Expression, t: Type)
    requires Ready(p, env, menv, ret, e, t) && e.Lambda?
    ensures Agree(p, t, ret, Eval(w, p, n, env, trace, e), Lowered(w, p, n, menv, trace, e))
  {
    hide MirrorsAll, NothingElse;
    var closure := Mir.Closure(CLOSURE_NAME, ArgumentNames(e.arguments), Compile(p, e.body), menv);
    var menv' := [Mir.Binding(CLOSURE_NAME, closure)] + menv;
    assert Mir.Eval(w, CompileProgram(p), n, menv', trace, Mir.Variable(CLOSURE_NAME)) == Value(closure, trace);
    assert RepresentsBare(p, Closure(e.arguments, e.result, e.body, env), closure);
  }

  // ----- Simple expressions -----

  lemma {:induction false} SimulatesIf(w: World, p: Program, n: nat, env: Environment, menv: Mir.Environment, trace: Trace,
                    ret: Option<Type>, e: Expression, t: Type)
    requires Ready(p, env, menv, ret, e, t) && e.If?
    ensures Agree(p, t, ret, Eval(w, p, n, env, trace, e), Lowered(w, p, n, menv, trace, e))
    decreases 2 * n + 1, e, 0
  {
    hide Represents, RepresentsBare, Mirrors, WellTyped;
    Simulates(w, p, n, env, menv, trace, ret, e.condition, BooleanType);
    var o := Eval(w, p, n, env, trace, e.condition);
    if o.Value? {
      BaseForm(p, BooleanType, o.value, Lowered(w, p, n, menv, trace, e.condition).value);
      var branch := if o.value.base.boolean then e.consequence else e.alternative;
      Simulates(w, p, n, env, menv, o.trace, ret, branch, t);
    }
  }

  lemma {:induction false} SimulatesNot(w: World, p: Program, n: nat, env: Environment, menv: Mir.Environment, trace: Trace,
                     ret: Option<Type>, e: Expression, t: Type)
    requires Ready(p, env, menv, ret, e, t) && e.Not?
    ensures Agree(p, t, ret, Eval(w, p, n, env, trace, e), Lowered(w, p, n, menv, trace, e))
    decreases 2 * n + 1, e, 0
  {
    hide Represents, RepresentsBare, Mirrors, WellTyped;
    Simulates(w, p, n, env, menv, trace, ret, e.argument, BooleanType);
    var o := Eval(w, p, n, env, trace, e.argument);
    if o.Value? {
      BaseForm(p, BooleanType, o.value, Lowered(w, p, n, menv, trace, e.argument).value);
      var result := Boolean(!o.value.base.boolean);
      PlainRepresents(p, result);
      assert Mir.Eval(w, CompileProgram(p), n, menv, o.trace, Mir.Constant(result)) == Value(Mir.Plain(result), o.trace);
    }
  }

  lemma {:induction false} SimulatesJunction(w: World, p: Program, n: nat, env: Environment, menv: Mir.Environment, trace: Trace,
                          ret: Option<Type>, e: Expression, t: Type)
    requires Ready(p, env, menv, ret, e, t) && (e.And? || e.Or?)
    ensures Agree(p, t, ret, Eval(w, p, n, env, trace, e), Lowered(w, p, n, menv, trace, e))
    decreases 2 * n + 1, e, 0
  {
    hide Represents, RepresentsBare, Mirrors, WellTyped;
    Simulates(w, p, n, env, menv, trace, ret, e.left, BooleanType);
    var o := Eval(w, p, n, env, trace, e.left);
    if o.Value? {
      BaseForm(p, BooleanType, o.value, Lowered(w, p, n, menv, trace, e.left).value);
      PlainRepresents(p, o.value.base);
      assert Mir.Eval(w, CompileProgram(p), n, menv, o.trace, Mir.Constant(o.value.base)) == Value(Mir.Plain(o.value.base), o.trace);
      Simulates(w, p, n, env, menv, o.trace, ret, e.right, BooleanType);
    }
  }

  lemma {:induction false} SimulatesNumeric(w: World, p: Program, n: nat, env: Environment, menv: Mir.Environment, trace: Trace,
                         ret: Option<Type>, e: Expression, t: Type)
    requires Ready(p, env, menv, ret, e, t) && e.Numeric?
    ensures Agree(p, t, ret, Eval(w, p, n, env, trace, e), Lowered(w, p, n, menv, trace, e))
    decreases 2 * n + 1, e, 0
  {
    hide Represents, RepresentsBare, Mirrors, WellTyped;
    Simulates(w, p, n, env, menv, trace, ret, e.left, NumberType);
    var o := Eval(w, p, n, env, trace, e.left);
    EvalsNumeric(w, p, n, env, menv, trace, e);
    hide Eval, Mir.Eval;
    if o.Value? {
      BaseForm(p, NumberType, o.value, Lowered(w, p, n, menv, trace, e.left).value);
      Simulates(w, p, n, env, menv, o.trace, ret, e.right, NumberType);
      var o' := Eval(w, p, n, env, o.trace, e.right);
      if o'.Value? {
        BaseForm(p, NumberType, o'.value, Lowered(w, p, n, menv, o.trace, e.right).value);
        PlainRepresents(p, Operate(w, e.operator, o.value.base.number, o'.value.base.number));
      }
    }
  }

  function Calculated(w: World, operator: NumericOperator, a: Value, b: Value, trace: Trace): Result {
    if a.Plain? && a.base.Number? && b.Plain? && b.base.Number? then
      Value(Plain(Operate(w, operator, a.base.number, b.base.number)), trace)
    else Stuck
  }

  function CalculatedBare(w: World, operator: NumericOperator, a: Mir.Value, b: Mir.Value, trace: Trace): Mir.Result {
    if a.Plain? && a.base.Number? && b.Plain? && b.base.Number? then
      Value(Mir.Plain(Operate(w, operator, a.base.number, b.base.number)), trace)
    else Stuck
  }

  lemma EvalsNumeric(w: World, p: Program, n: nat, env: Environment, menv: Mir.Environment, trace: Trace, e: Expression)
    requires e.Numeric?
    ensures var o := Eval(w, p, n, env, trace, e.left);
            Eval(w, p, n, env, trace, e) ==
            if !o.Value? then o
            else
              var o' := Eval(w, p, n, env, o.trace, e.right);
              if o'.Value? then Calculated(w, e.operator, o.value, o'.value, o'.trace) else o'
    ensures var o := Lowered(w, p, n, menv, trace, e.left);
            Lowered(w, p, n, menv, trace, e) ==
            if !o.Value? then o
            else
              var o' := Lowered(w, p, n, menv, o.trace, e.right);
              if o'.Value? then CalculatedBare(w, e.operator, o.value, o'.value, o'.trace) else o'
  {
  }

  lemma {:induction false} SimulatesNotEqual(w: World, p: Program, n: nat, env: Environment, menv: Mir.Environment, trace: Trace,
                          ret: Option<Type>, e: Expression, t: Type)
    requires Ready(p, env, menv, ret, e, t) && e.NotEqual?
    ensures Agree(p, t, ret, Eval(w, p, n, env, trace, e), Lowered(w, p, n, menv, trace, e))
    decreases 2 * n + 1, e, 0
  {
    hide Represents, RepresentsBare, Mirrors, WellTyped;
    Simulates(w, p, n, env, menv, trace, ret, e.left, NumberType);
    var o := Eval(w, p, n, env, trace, e.left);
    EvalsNotEqual(w, p, n, menv, trace, e);
    hide Mir.Eval;
    if o.Value? {
      BaseForm(p, NumberType, o.value, Lowered(w, p, n, menv, trace, e.left).value);
      Simulates(w, p, n, env, menv, o.trace, ret, e.right, NumberType);
      var o' := Eval(w, p, n, env, o.trace, e.right);
      if o'.Value? {
        BaseForm(p, NumberType, o'.value, Lowered(w, p, n, menv, o.trace, e.right).value);
        var b := w.compare(Equal, o.value.base.number, o'.value.base.number);
        PlainRepresents(p, Boolean(!b));
      }
    }
  }

  lemma EvalsNotEqual(w: World, p: Program, n: nat, menv: Mir.Environment, trace: Trace, e: Expression)
    requires e.NotEqual?
    ensures var o := Lowered(w, p, n, menv, trace, e.left);
            if !o.Value? then Lowered(w, p, n, menv, trace, e) == o
            else
              var o' := Lowered(w, p, n, menv, o.trace, e.right);
              if !o'.Value? then Lowered(w, p, n, menv, trace, e) == o'
              else
                o.value.Plain? && o.value.base.Number? && o'.value.Plain? && o'.value.base.Number? ==>
                  Lowered(w, p, n, menv, trace, e) ==
                  Value(Mir.Plain(Boolean(!w.compare(Equal, o.value.base.number, o'.value.base.number))), o'.trace)
  {
    var q, equal := CompileProgram(p), Mir.Numeric(Equal, Compile(p, e.left), Compile(p, e.right));
    var o := Lowered(w, p, n, menv, trace, e.left);
    if o.Value? {
      var o' := Lowered(w, p, n, menv, o.trace, e.right);
      if o'.Value? && o.value.Plain? && o.value.base.Number? && o'.value.Plain? && o'.value.base.Number? {
        var b := w.compare(Equal, o.value.base.number, o'.value.base.number);
        assert Mir.Eval(w, q, n, menv, trace, equal) == Value(Mir.Plain(Boolean(b)), o'.trace);
        assert Mir.Eval(w, q, n, menv, o'.trace, Mir.Constant(Boolean(!b))) == Value(Mir.Plain(Boolean(!b)), o'.trace);
      } else {
        assert !o'.Value? ==> Mir.Eval(w, q, n, menv, trace, equal) == o';
      }
    } else {
      assert Mir.Eval(w, q, n, menv, trace, equal) == o;
    }
  }

  lemma {:induction false} SimulatesLet(w: World, p: Program, n: nat, env: Environment, menv: Mir.Environment, trace: Trace,
                     ret: Option<Type>, e: Expression, t: Type)
    requires Ready(p, env, menv, ret, e, t) && e.Let?
    ensures Agree(p, t, ret, Eval(w, p, n, env, trace, e), Lowered(w, p, n, menv, trace, e))
    decreases 2 * n + 1, e, 0
  {
    hide Represents, RepresentsBare, Mirrors, WellTyped;
    var s := e.annotation.value;
    Simulates(w, p, n, env, menv, trace, ret, e.bound, s);
    var o, o' := Eval(w, p, n, env, trace, e.bound), Lowered(w, p, n, menv, trace, e.bound);
    if o.Value? {
      if e.bound_name.Some? {
        BindMirrors(p, env, menv, e.bound_name.value, s, o.value, o'.value);
        TypesOfCons(Binding(e.bound_name.value, Some(s), o.value), env);
        Simulates(w, p, n, [Binding(e.bound_name.value, Some(s), o.value)] + env,
                  [Mir.Binding(e.bound_name.value, o'.value)] + menv, o.trace, ret, e.body, t);
      } else {
        GeneratedMirrors(p, env, menv, "", o'.value);
        Simulates(w, p, n, env, [Mir.Binding("", o'.value)] + menv, o.trace, ret, e.body, t);
      }
    }
  }

  lemma {:induction false} SimulatesCoerce(w: World, p: Program, n: nat, env: Environment, menv: Mir.Environment, trace: Trace,
                        ret: Option<Type>, e: Expression, t: Type)
    requires Ready(p, env, menv, ret, e, t) && e.Coerce?
    ensures Agree(p, t, ret, Eval(w, p, n, env, trace, e), Lowered(w, p, n, menv, trace, e))
    decreases 2 * n + 1, e, 0
  {
    Simulates(w, p, n, env, menv, trace, ret, e.argument, e.from);
    var o, o' := Eval(w, p, n, env, trace, e.argument), Lowered(w, p, n, menv, trace, e.argument);
    hide Represents, RepresentsBare, Mirrors, WellTyped;
    if IsConcrete(e.from) && IsVariant(e.to) {
      EvalTagged(w, CompileProgram(p), n, menv, trace, e.from, Compile(p, e.argument));
    }
    if o.Value? {
      TypeIsConcrete(p, e.from, o.value, o'.value);
      if IsVariant(e.from) {
        Widen(p, e.from, e.to, o.value, o'.value);
      } else if IsVariant(e.to) {
        TagRepresents(p, e.from, e.to, o.value, o'.value);
      }
    }
  }

  // ----- Calls -----

  lemma {:induction false} SimulatesAll(w: World, p: Program, n: nat, env: Environment, menv: Mir.Environment, trace: Trace,
                     ret: Option<Type>, es: seq<Expression>, ts: seq<Type>)
    requires WellTyped(p) && Mirrors(p, env, menv) && InferAll(p, TypesOf(env), ret, es) == Some(ts)
    ensures AgreeAll(p, ts, ret, EvalAll(w, p, n, env, trace, es),
                     Mir.EvalAll(w, CompileProgram(p), n, menv, trace, CompileAll(p, es)))
    decreases 2 * n + 1, es, 0
  {
    hide Represents, RepresentsBare, Mirrors, WellTyped;
    if es != [] {
      InferredAll(p, TypesOf(env), ret, es, ts);
      hide Infer, InferAll, RepresentsAll, Compile;
      Simulates(w, p, n, env, menv, trace, ret, es[0], ts[0]);
      var o, o' := Eval(w, p, n, env, trace, es[0]), Lowered(w, p, n, menv, trace, es[0]);
      assert CompileAll(p, es)[0] == Compile(p, es[0]) && CompileAll(p, es)[1..] == CompileAll(p, es[1..]);
      if o.Value? {
        SimulatesAll(w, p, n, env, menv, o.trace, ret, es[1..], ts[1..]);
        var os := EvalAll(w, p, n, env, o.trace, es[1..]);
        var os' := Mir.EvalAll(w, CompileProgram(p), n, menv, o.trace, CompileAll(p, es[1..]));
        hide Eval, Mir.Eval;
        if os.Value? {
          ConsAll(p, ts, o.value, o'.value, os.value, os'.value);
        }
      }
    }
  }

  lemma InferredAll(p: Program, ctx: Context, ret: Option<Type>, es: seq<Expression>, ts: seq<Type>)
    requires es != [] && InferAll(p, ctx, ret, es) == Some(ts)
    ensures |ts| == |es| && Infer(p, ctx, ret, es[0]) == Some(ts[0]) && InferAll(p, ctx, ret, es[1..]) == Some(ts[1..])
  {
    hide Infer;
    assert ts == [ts[0]] + ts[1..];
  }

  lemma ConsAll(p: Program, ts: seq<Type>, v: Value, m: Mir.Value, vs: seq<Value>, ms: seq<Mir.Value>)
    requires ts != [] && Represents(p, ts[0], v, m) && RepresentsAll(p, ts[1..], vs, ms)
    ensures RepresentsAll(p, ts, [v] + vs, [m] + ms)
  {
    hide Represents, RepresentsBare;
    forall i | 0 <= i < |ts| ensures Represents(p, ts[i], ([v] + vs)[i], ([m] + ms)[i]) {
      if i > 0 {
        assert Represents(p, ts[1..][i - 1], vs[i - 1], ms[i - 1]);
      }
    }
  }

  /** Calls of represented functions agree. */
  lemma {:induction false} SimulatesApply(w: World, p: Program, n: nat, f: Value, m: Mir.Value, ts: seq<Type>, result: Type,
                       vs: seq<Value>, ms: seq<Mir.Value>, trace: Trace)
    requires WellTyped(p) && Represents(p, FunctionType(ts, result), f, m) && RepresentsAll(p, ts, vs, ms)
    ensures Agree(p, result, None, Apply(w, p, n, f, vs, trace), Mir.Apply(w, CompileProgram(p), n, m, ms, trace))
    decreases 2 * n, 1
  {
    FunctionForm(p, f, m, ts, result);
    if f.Closure? {
      ApplyBinds(p, f, m, ts, result, vs, ms);
      hide Eval, Mir.Eval, Represents, RepresentsBare, RepresentsAll, Mirrors, WellTyped, Infer, Compile, Apply, Mir.Apply, Agree;
      SimulatesClosure(w, p, n, f, m, result, vs, ms, trace);
    } else {
      hide Eval, Mir.Eval, Represents, RepresentsBare, RepresentsAll, WellTyped, Agree, CallForeign, Mir.CallForeign;
      SimulatesForeign(w, p, f, m, ts, result, vs, ms, trace);
    }
  }

  lemma {:induction false} SimulatesClosure(w: World, p: Program, n: nat, f: Value, m: Mir.Value, result: Type,
                         vs: seq<Value>, ms: seq<Mir.Value>, trace: Trace)
    requires WellTyped(p) && f.Closure? && m.Closure? && m.body == Compile(p, f.body)
    requires |m.arguments| == |f.arguments| == |vs| == |ms|
    requires Mirrors(p, BindAll(f.environment, f.arguments, vs), Mir.BindAll([Mir.Binding(m.self, m)] + m.environment, m.arguments, ms))
    requires Infer(p, TypesOf(BindAll(f.environment, f.arguments, vs)), Some(result), f.body) == Some(result)
    ensures Agree(p, result, None, Apply(w, p, n, f, vs, trace), Mir.Apply(w, CompileProgram(p), n, m, ms, trace))
    decreases 2 * n, 0
  {
    hide Eval, Mir.Eval, Represents, RepresentsBare, RepresentsAll, Mirrors, WellTyped, Infer, Compile,
         Apply, Mir.Apply, BindAll, Mir.BindAll, CompileProgram, TypesOf, Agree, EndCall;
    AppliesClosure(w, p, n, f, m, vs, ms, trace);
    if n > 0 {
      var env := BindAll(f.environment, f.arguments, vs);
      var menv := Mir.BindAll([Mir.Binding(m.self, m)] + m.environment, m.arguments, ms);
      Simulates(w, p, n - 1, env, menv, trace, Some(result), f.body, result);
      CallsEnd(p, result, Eval(w, p, n - 1, env, trace, f.body), Lowered(w, p, n - 1, menv, trace, f.body));
    } else {
      TimeoutsAgree(p, result, None);
    }
  }

  lemma CallsEnd(p: Program, t: Type, h: Result, m: Mir.Result)
    requires Agree(p, t, Some(t), h, m)
    ensures Agree(p, t, None, EndCall(h), EndCall(m))
  {
    hide Represents;
  }

  lemma TimeoutsAgree(p: Program, t: Type, ret: Option<Type>)
    ensures Agree(p, t, ret, Timeout, Timeout)
  {
  }

  lemma AppliesClosure(w: World, p: Program, n: nat, f: Value, m: Mir.Value, vs: seq<Value>, ms: seq<Mir.Value>, trace: Trace)
    requires f.Closure? && m.Closure? && |m.arguments| == |f.arguments| == |vs| == |ms|
    ensures Apply(w, p, n, f, vs, trace) ==
            if n == 0 then Timeout else EndCall(Eval(w, p, n - 1, BindAll(f.environment, f.arguments, vs), trace, f.body))
    ensures Mir.Apply(w, CompileProgram(p), n, m, ms, trace) ==
            if n == 0 then Timeout
            else EndCall(Mir.Eval(w, CompileProgram(p), n - 1,
                                      Mir.BindAll([Mir.Binding(m.self, m)] + m.environment, m.arguments, ms), trace, m.body))
  {
    hide Eval, Mir.Eval;
  }

  lemma FunctionForm(p: Program, f: Value, m: Mir.Value, ts: seq<Type>, result: Type)
    requires Represents(p, FunctionType(ts, result), f, m)
    ensures f.Closure? || (f.Foreign? && m == Mir.Foreign(f.name, |f.types|, f.result) && f.types == ts && f.result == result)
    ensures f.Foreign? ==> IsForeign(ts, result)
  {
    hide Infer, Compile, MirrorsAll, NothingElse;
  }

  /** The body of a represented function is ready to be evaluated with represented arguments. */
  lemma ApplyBinds(p: Program, f: Value, m: Mir.Value, ts: seq<Type>, result: Type, vs: seq<Value>, ms: seq<Mir.Value>)
    requires f.Closure? && Represents(p, FunctionType(ts, result), f, m) && RepresentsAll(p, ts, vs, ms)
    ensures m.Closure? && m.body == Compile(p, f.body) && |m.arguments| == |f.arguments| == |vs| == |ms|
    ensures Mirrors(p, BindAll(f.environment, f.arguments, vs), Mir.BindAll([Mir.Binding(m.self, m)] + m.environment, m.arguments, ms))
    ensures Infer(p, TypesOf(BindAll(f.environment, f.arguments, vs)), Some(result), f.body) == Some(result)
  {
    assert RepresentsBare(p, f, m) && f.result == result && ArgumentTypes(f.arguments) == ts;
    assert Mirrors(p, f.environment, m.environment);
    hide Represents, RepresentsBare, Infer, Compile;
    var menv := [Mir.Binding(m.self, m)] + m.environment;
    GeneratedMirrors(p, f.environment, m.environment, m.self, m);
    BindAllMirrors(p, f.environment, menv, f.arguments, vs, ms);
  }

  lemma SimulatesForeign(w: World, p: Program, f: Value, m: Mir.Value, ts: seq<Type>, result: Type,
                         vs: seq<Value>, ms: seq<Mir.Value>, trace: Trace)
    requires f.Foreign? && m == Mir.Foreign(f.name, |f.types|, f.result) && f.types == ts && f.result == result
    requires IsForeign(ts, result) && RepresentsAll(p, ts, vs, ms)
    ensures Agree(p, result, None, CallForeign(w, f.name, result, vs, trace), Mir.CallForeign(w, f.name, result, ms, trace))
  {
    forall i | 0 <= i < |vs| ensures vs[i].Plain? && ms[i] == Mir.Plain(vs[i].base) {
      BaseForm(p, ts[i], vs[i], ms[i]);
    }
    assert Bases(vs) == Mir.Bases(ms);
    var response := Respond(w, f.name, Bases(vs), trace, result);
    assert BaseType(response) == result;
  }

  lemma {:induction false} SimulatesCall(w: World, p: Program, n: nat, env: Environment, menv: Mir.Environment, trace: Trace,
                      ret: Option<Type>, e: Expression, t: Type)
    requires Ready(p, env, menv, ret, e, t) && e.Call?
    ensures Agree(p, t, ret, Eval(w, p, n, env, trace, e), Lowered(w, p, n, menv, trace, e))
    decreases 2 * n + 1, e, 0
  {
    hide Represents, RepresentsBare, Mirrors, WellTyped;
    var f := Infer(p, TypesOf(env), ret, e.callee).value;
    EvalsCall(w, p, n, env, menv, trace, e);
    assert f.FunctionType? && InferAll(p, TypesOf(env), ret, e.operands) == Some(f.arguments) && t == f.result;
    hide Eval, Mir.Eval, Infer, InferAll, Compile, EvalAll, Mir.EvalAll, Apply, Mir.Apply;
    Simulates(w, p, n, env, menv, trace, ret, e.callee, f);
    var o, o' := Eval(w, p, n, env, trace, e.callee), Lowered(w, p, n, menv, trace, e.callee);
    if o.Value? {
      SimulatesAll(w, p, n, env, menv, o.trace, ret, e.operands, f.arguments);
      var os := EvalAll(w, p, n, env, o.trace, e.operands);
      var os' := Mir.EvalAll(w, CompileProgram(p), n, menv, o.trace, CompileAll(p, e.operands));
      if os.Value? {
        SimulatesApply(w, p, n, o.value, o'.value, f.arguments, f.result, os.value, os'.value, os.trace);
      }
    }
  }

  lemma EvalsCall(w: World, p: Program, n: nat, env: Environment, menv: Mir.Environment, trace: Trace, e: Expression)
    requires e.Call?
    ensures var o := Eval(w, p, n, env, trace, e.callee);
            if !o.Value? then Eval(w, p, n, env, trace, e) == o
            else
              var os := EvalAll(w, p, n, env, o.trace, e.operands);
              Eval(w, p, n, env, trace, e) == if os.Value? then Apply(w, p, n, o.value, os.value, os.trace) else Fail(os)
    ensures var q, o := CompileProgram(p), Lowered(w, p, n, menv, trace, e.callee);
            if !o.Value? then Lowered(w, p, n, menv, trace, e) == o
            else
              var os := Mir.EvalAll(w, q, n, menv, o.trace, CompileAll(p, e.operands));
              Lowered(w, p, n, menv, trace, e) ==
              if os.Value? then Mir.Apply(w, q, n, o.value, os.value, os.trace) else Fail(os)
  {
  }

  // ----- Records -----

  lemma RecordForm(p: Program, name: string, v: Value, m: Mir.Value)
    requires Represents(p, RecordType(name), v, m)
    ensures v.Record? && v.name == name && m.Structure? && m.record == Mir.Declared(name) && |m.fields| == |v.fields|
    ensures FindRecord(p.records, name).Some? && |FindRecord(p.records, name).value| == |v.fields|
    ensures forall i :: 0 <= i < |v.fields| ==> Represents(p, FindRecord(p.records, name).value[i].type_, v.fields[i], m.fields[i])
  {
  }

  lemma {:induction false} SimulatesSelect(w: World, p: Program, n: nat, env: Environment, menv: Mir.Environment, trace: Trace,
                        ret: Option<Type>, e: Expression, t: Type)
    requires Ready(p, env, menv, ret, e, t) && e.Select?
    ensures Agree(p, t, ret, Eval(w, p, n, env, trace, e), Lowered(w, p, n, menv, trace, e))
    decreases 2 * n + 1, e, 0
  {
    hide Represents, RepresentsBare, Mirrors, WellTyped;
    var name := e.record_name.value;
    Simulates(w, p, n, env, menv, trace, ret, e.argument, RecordType(name));
    var o, o' := Eval(w, p, n, env, trace, e.argument), Lowered(w, p, n, menv, trace, e.argument);
    if o.Value? {
      RecordForm(p, name, o.value, o'.value);
    }
  }

  /** The types of fields in their declared order. */
  function DeclaredTypes(declared: seq<FieldType>): (r: seq<Type>)
    ensures |r| == |declared|
  {
    seq(|declared|, i requires 0 <= i < |declared| => declared[i].type_)
  }

  lemma {:induction false} ReplaceStores(p: Program, record: string, declared: seq<FieldType>, fields: seq<Field>, ts: seq<Type>,
                      old_: seq<Value>, oldM: seq<Mir.Value>, vs: seq<Value>, ms: seq<Mir.Value>)
    requires FindRecord(p.records, record) == Some(declared) && |ts| == |fields|
    requires GivesSome(declared, FieldNames(fields), ts) && RepresentsAll(p, ts, vs, ms)
    requires RepresentsAll(p, DeclaredTypes(declared), old_, oldM)
    ensures var r, r' := Replace(declared, old_, FieldNames(fields), vs), Mir.Store(oldM, Mir.Indices(CompileUpdates(p, record, fields)), ms);
            r.Some? && r'.Some? && RepresentsAll(p, DeclaredTypes(declared), r.value, r'.value)
    decreases |fields|
  {
    hide Represents, RepresentsBare, Compile;
    if fields != [] {
      var names, updates := FieldNames(fields), CompileUpdates(p, record, fields);
      assert names[0] == fields[0].name && ts[0] == ts[0];
      var i := FieldIndex(declared, names[0]).value;
      assert Mir.Indices(updates)[0] == i;
      assert Represents(p, ts[0], vs[0], ms[0]);
      assert names[1..] == FieldNames(fields[1..]) && updates[1..] == CompileUpdates(p, record, fields[1..]);
      assert Mir.Indices(updates)[1..] == Mir.Indices(updates[1..]);
      assert RepresentsAll(p, ts[1..], vs[1..], ms[1..]) by {
        forall j | 0 <= j < |vs[1..]| ensures Represents(p, ts[1..][j], vs[1..][j], ms[1..][j]) {
          assert Represents(p, ts[j + 1], vs[j + 1], ms[j + 1]);
        }
      }
      assert GivesSome(declared, names[1..], ts[1..]) by {
        forall j | 0 <= j < |names[1..]|
          ensures FieldIndex(declared, names[1..][j]).Some?
               && declared[FieldIndex(declared, names[1..][j]).value].type_ == ts[1..][j]
        {
          assert names[1..][j] == names[j + 1] && ts[1..][j] == ts[j + 1];
        }
      }
      ReplaceStores(p, record, declared, fields[1..], ts[1..], old_[i := vs[0]], oldM[i := ms[0]], vs[1..], ms[1..]);
    }
  }

  lemma {:induction false} SimulatesUpdateFields(w: World, p: Program, n: nat, env: Environment, menv: Mir.Environment,
                      trace: Trace,
                              ret: Option<Type>, record: string, fields: seq<Field>, ts: seq<Type>)
    requires WellTyped(p) && Mirrors(p, env, menv) && InferFields(p, TypesOf(env), ret, fields) == Some(ts)
    ensures AgreeAll(p, ts, ret, EvalFields(w, p, n, env, trace, fields),
                     Mir.EvalUpdateFields(w, CompileProgram(p), n, menv, trace, CompileUpdates(p, record, fields)))
    decreases 2 * n + 1, fields, 0
  {
    hide Represents, RepresentsBare, Mirrors, WellTyped;
    if fields != [] {
      InferredFields(p, TypesOf(env), ret, fields, ts);
      hide InferField, InferFields, RepresentsAll, CompileField;
      SimulatesField(w, p, n, env, menv, trace, ret, fields[0], ts[0]);
      var updates := CompileUpdates(p, record, fields);
      assert updates[1..] == CompileUpdates(p, record, fields[1..]);
      var o, o' := EvalField(w, p, n, env, trace, fields[0]), Mir.EvalUpdateField(w, CompileProgram(p), n, menv, trace, updates[0]);
      assert o' == Mir.Eval(w, CompileProgram(p), n, menv, trace, CompileField(p, fields[0]));
      if o.Value? {
        SimulatesUpdateFields(w, p, n, env, menv, o.trace, ret, record, fields[1..], ts[1..]);
        var os := EvalFields(w, p, n, env, o.trace, fields[1..]);
        var os' := Mir.EvalUpdateFields(w, CompileProgram(p), n, menv, o.trace, updates[1..]);
        hide EvalField, Mir.Eval, Mir.EvalUpdateField;
        if os.Value? {
          ConsAll(p, ts, o.value, o'.value, os.value, os'.value);
        }
      }
    }
  }

  lemma InferredFields(p: Program, ctx: Context, ret: Option<Type>, fields: seq<Field>, ts: seq<Type>)
    requires fields != [] && InferFields(p, ctx, ret, fields) == Some(ts)
    ensures |ts| == |fields| && InferField(p, ctx, ret, fields[0]) == Some(ts[0])
    ensures InferFields(p, ctx, ret, fields[1..]) == Some(ts[1..])
  {
    hide InferField;
    assert ts == [ts[0]] + ts[1..];
  }

  lemma {:induction false} SimulatesField(w: World, p: Program, n: nat, env: Environment, menv: Mir.Environment, trace: Trace,
                       ret: Option<Type>, field: Field, t: Type)
    requires WellTyped(p) && Mirrors(p, env, menv) && InferField(p, TypesOf(env), ret, field) == Some(t)
    ensures Agree(p, t, ret, EvalField(w, p, n, env, trace, field),
                  Mir.Eval(w, CompileProgram(p), n, menv, trace, CompileField(p, field)))
    decreases 2 * n + 1, field, 0
  {
    match field
    case Field(_, expression) => Simulates(w, p, n, env, menv, trace, ret, expression, t);
  }

  lemma {:induction false} SimulatesUpdate(w: World, p: Program, n: nat, env: Environment, menv: Mir.Environment, trace: Trace,
                        ret: Option<Type>, e: Expression, t: Type)
    requires Ready(p, env, menv, ret, e, t) && e.Update?
    ensures Agree(p, t, ret, Eval(w, p, n, env, trace, e), Lowered(w, p, n, menv, trace, e))
    decreases 2 * n + 1, e, 0
  {
    hide Mirrors, WellTyped, Represents, RepresentsBare, RepresentsAll, Infer, InferFields, Eval, Mir.Eval, Compile;
    UpdateInferred(p, TypesOf(env), ret, e, t);
    EvalsUpdate(w, p, n, env, menv, trace, e);
    Simulates(w, p, n, env, menv, trace, ret, e.argument, t);
    var o, o' := Eval(w, p, n, env, trace, e.argument), Lowered(w, p, n, menv, trace, e.argument);
    if o.Value? {
      var ts := InferFields(p, TypesOf(env), ret, e.fields).value;
      SimulatesUpdateFields(w, p, n, env, menv, o.trace, ret, e.record, e.fields, ts);
      var os := EvalFields(w, p, n, env, o.trace, e.fields);
      var os' := Mir.EvalUpdateFields(w, CompileProgram(p), n, menv, o.trace, CompileUpdates(p, e.record, e.fields));
      if os.Value? {
        UpdatesAgree(p, ret, e, ts, o.value, o'.value, os.value, os'.value, os.trace);
      }
    }
  }

  lemma UpdateInferred(p: Program, ctx: Context, ret: Option<Type>, e: Expression, t: Type)
    requires e.Update? && Infer(p, ctx, ret, e) == Some(t)
    ensures t == RecordType(e.record) && Infer(p, ctx, ret, e.argument) == Some(t)
    ensures FindRecord(p.records, e.record).Some? && InferFields(p, ctx, ret, e.fields).Some?
    ensures |InferFields(p, ctx, ret, e.fields).value| == |e.fields|
    ensures GivesSome(FindRecord(p.records, e.record).value, FieldNames(e.fields), InferFields(p, ctx, ret, e.fields).value)
  {
    hide InferFields, GivesSome;
  }

  /** Replacing fields of a represented record. */
  lemma UpdatesAgree(p: Program, ret: Option<Type>, e: Expression, ts: seq<Type>, v: Value, m: Mir.Value,
                     vs: seq<Value>, ms: seq<Mir.Value>, trace: Trace)
    requires e.Update? && FindRecord(p.records, e.record).Some? && |ts| == |e.fields|
    requires GivesSome(FindRecord(p.records, e.record).value, FieldNames(e.fields), ts)
    requires Represents(p, RecordType(e.record), v, m) && RepresentsAll(p, ts, vs, ms)
    ensures Agree(p, RecordType(e.record), ret, Updated(p, e.record, v, FieldNames(e.fields), vs, trace),
                  UpdatedBare(e.record, m, Mir.Indices(CompileUpdates(p, e.record, e.fields)), ms, trace))
  {
    var declared := FindRecord(p.records, e.record).value;
    RecordForm(p, e.record, v, m);
    hide Represents, RepresentsBare, GivesSome;
    ReplaceStores(p, e.record, declared, e.fields, ts, v.fields, m.fields, vs, ms);
    RecordRepresents(p, e.record, declared, Replace(declared, v.fields, FieldNames(e.fields), vs).value,
                     Mir.Store(m.fields, Mir.Indices(CompileUpdates(p, e.record, e.fields)), ms).value);
  }

  lemma EvalsUpdate(w: World, p: Program, n: nat, env: Environment, menv: Mir.Environment, trace: Trace, e: Expression)
    requires e.Update?
    ensures var o := Eval(w, p, n, env, trace, e.argument);
            Eval(w, p, n, env, trace, e) ==
            if !o.Value? then o
            else
              var os := EvalFields(w, p, n, env, o.trace, e.fields);
              if os.Value? then Updated(p, e.record, o.value, FieldNames(e.fields), os.value, os.trace) else Fail(os)
    ensures var o := Lowered(w, p, n, menv, trace, e.argument);
            Lowered(w, p, n, menv, trace, e) ==
            if !o.Value? then o
            else
              var updates := CompileUpdates(p, e.record, e.fields);
              var os := Mir.EvalUpdateFields(w, CompileProgram(p), n, menv, o.trace, updates);
              if !os.Value? then Fail(os) else UpdatedBare(e.record, o.value, Mir.Indices(updates), os.value, os.trace)
  {
  }

  function UpdatedBare(record: string, m: Mir.Value, indices: seq<nat>, ms: seq<Mir.Value>, trace: Trace): Mir.Result
    requires |indices| == |ms|
  {
    if !m.Structure? || m.record != Mir.Declared(record) || Mir.Store(m.fields, indices, ms).None? then Stuck
    else Value(Mir.Structure(Mir.Declared(record), Mir.Store(m.fields, indices, ms).value), trace)
  }

  lemma RecordRepresents(p: Program, record: string, declared: seq<FieldType>, vs: seq<Value>, ms: seq<Mir.Value>)
    requires FindRecord(p.records, record) == Some(declared) && RepresentsAll(p, DeclaredTypes(declared), vs, ms)
    ensures Represents(p, RecordType(record), Record(record, vs), Mir.Structure(Mir.Declared(record), ms))
  {
    forall i | 0 <= i < |vs| ensures Represents(p, declared[i].type_, vs[i], ms[i]) {
      assert Represents(p, DeclaredTypes(declared)[i], vs[i], ms[i]);
    }
  }

  // ----- Record construction -----

  /** The environment after fields have been bound to generated names. */
  function BindGenerated(menv: Mir.Environment, names: seq<string>, ms: seq<Mir.Value>): Mir.Environment
    requires |names| == |ms|
    decreases |names|
  {
    if names == [] then menv
    else BindGenerated([Mir.Binding(Generated(names[0]), ms[0])] + menv, names[1..], ms[1..])
  }

  /** A generated name that is bound no more keeps its value. */
  lemma {:induction false} BoundBefore(menv: Mir.Environment, names: seq<string>, ms: seq<Mir.Value>, name: string)
    requires |names| == |ms| && name !in names
    ensures Mir.Lookup(BindGenerated(menv, names, ms), Generated(name)) == Mir.Lookup(menv, Generated(name))
    decreases |names|
  {
    if names != [] {
      var menv' := [Mir.Binding(Generated(names[0]), ms[0])] + menv;
      if Generated(names[0]) == Generated(name) {
        GeneratedIsInjective(names[0], name);
      }
      assert names[0] != name;
      assert menv'[1..] == menv;
      BoundBefore(menv', names[1..], ms[1..], name);
    }
  }

  lemma {:induction false} BoundField(menv: Mir.Environment, names: seq<string>, ms: seq<Mir.Value>, name: string)
    requires |names| == |ms| && name in names && forall i, j :: 0 <= i < j < |names| ==> names[i] != names[j]
    ensures NameIndex(names, name).Some?
    ensures Mir.Lookup(BindGenerated(menv, names, ms), Generated(name)) == Some(ms[NameIndex(names, name).value])
    decreases |names|
  {
    var menv' := [Mir.Binding(Generated(names[0]), ms[0])] + menv;
    if names[0] == name {
      forall x | x in names[1..] ensures x != name {
        var i :| 0 <= i < |names[1..]| && names[1..][i] == x;
        assert names[i + 1] == x;
      }
      BoundBefore(menv', names[1..], ms[1..], name);
    } else {
      assert name in names[1..];
      BoundField(menv', names[1..], ms[1..], name);
    }
  }

  /** Reading the generated variables yields the fields in their declared order. */
  lemma {:induction false} ReadsFields(w: World, p: Program, n: nat, menv: Mir.Environment, trace: Trace,
                      declared: seq<FieldType>,
                    names: seq<string>, ts: seq<Type>, vs: seq<Value>, ms: seq<Mir.Value>, all: seq<FieldType>)
    requires |names| == |ts| && RepresentsAll(p, ts, vs, ms)
    requires forall i, j :: 0 <= i < j < |names| ==> names[i] != names[j]
    requires GivesSome(all, names, ts) && DistinctFields(all) && (forall i :: 0 <= i < |declared| ==> declared[i] in all)
    requires forall i :: 0 <= i < |declared| ==> declared[i].name in names
    ensures var variables := VariablesOf(declared);
            var r, r' := Arrange(declared, names, vs), Mir.EvalAll(w, CompileProgram(p), n, BindGenerated(menv, names, ms), trace, variables);
            r.Some? && r'.Value? && r'.trace == trace && RepresentsAll(p, DeclaredTypes(declared), r.value, r'.value)
    decreases |declared|
  {
    hide Represents, RepresentsBare, Compile, CompileProgram, BindGenerated;
    var menv' := BindGenerated(menv, names, ms);
    var variables := VariablesOf(declared);
    if declared != [] {
      var rest := declared[1..];
      assert variables[1..] == VariablesOf(rest);
      ReadsFields(w, p, n, menv, trace, rest, names, ts, vs, ms, all);
      BoundField(menv, names, ms, declared[0].name);
      var k := NameIndex(names, declared[0].name).value;
      assert Represents(p, ts[k], vs[k], ms[k]);
      FieldIndexUnique(all, declared[0]);
      assert ts[k] == declared[0].type_;
      assert Mir.Eval(w, CompileProgram(p), n, menv', trace, variables[0]) == Value(ms[k], trace);
      var tail, tail' := Arrange(rest, names, vs).value, Mir.EvalAll(w, CompileProgram(p), n, menv', trace, variables[1..]).value;
      assert Arrange(declared, names, vs) == Some([vs[k]] + tail);
      assert Mir.EvalAll(w, CompileProgram(p), n, menv', trace, variables) == Value([ms[k]] + tail', trace);
      ConsRepresents(p, declared, vs[k], ms[k], tail, tail');
    }
  }

  lemma ConsRepresents(p: Program, declared: seq<FieldType>, v: Value, m: Mir.Value, vs: seq<Value>, ms: seq<Mir.Value>)
    requires declared != [] && Represents(p, declared[0].type_, v, m) && RepresentsAll(p, DeclaredTypes(declared[1..]), vs, ms)
    ensures RepresentsAll(p, DeclaredTypes(declared), [v] + vs, [m] + ms)
  {
    hide Represents, RepresentsBare;
    forall i | 0 <= i < |declared| ensures Represents(p, DeclaredTypes(declared)[i], ([v] + vs)[i], ([m] + ms)[i]) {
      if i > 0 {
        assert Represents(p, DeclaredTypes(declared[1..])[i - 1], vs[i - 1], ms[i - 1]);
      }
    }
  }

  lemma {:induction false} FieldIndexUnique(declared: seq<FieldType>, field: FieldType)
    requires DistinctFields(declared) && field in declared
    ensures FieldIndex(declared, field.name).Some? && declared[FieldIndex(declared, field.name).value] == field
  {
    var k :| 0 <= k < |declared| && declared[k] == field;
    if k > 0 {
      assert declared[0].name != declared[k].name;
      assert declared[1..][k - 1] == field;
      FieldIndexUnique(declared[1..], field);
    }
  }

  /** Fields are evaluated in the given order; what follows them finds them under generated names. */
  lemma {:induction false} SimulatesFields(w: World, p: Program, n: nat, env: Environment, menv: Mir.Environment, trace: Trace,
                        ret: Option<Type>, fields: seq<Field>, ts: seq<Type>, end: Mir.Expression)
    returns (ms: seq<Mir.Value>)
    requires WellTyped(p) && Mirrors(p, env, menv) && InferFields(p, TypesOf(env), ret, fields) == Some(ts)
    ensures var o := EvalFields(w, p, n, env, trace, fields);
            var o' := Mir.Eval(w, CompileProgram(p), n, menv, trace, CompileFields(p, fields, end));
            && (o.Value? ==>
                  && |ms| == |fields| && RepresentsAll(p, ts, o.value, ms)
                  && o' == Mir.Eval(w, CompileProgram(p), n, BindGenerated(menv, FieldNames(fields), ms), o.trace, end))
            && (o.Return? ==> o'.Return? && o'.trace == o.trace && ret.Some? && Represents(p, ret.value, o.returned, o'.returned))
            && (o.Timeout? ==> o'.Timeout?) && !o.Stuck?
    decreases 2 * n + 1, fields, 0
  {
    hide Represents, RepresentsBare, Mirrors, WellTyped;
    if fields == [] {
      ms := [];
    } else {
      InferredFields(p, TypesOf(env), ret, fields, ts);
      EvalsFields(w, p, n, env, menv, trace, fields, end);
      hide Eval, Mir.Eval, EvalField, EvalFields, InferField, InferFields, RepresentsAll, CompileField, CompileFields, BindGenerated;
      SimulatesField(w, p, n, env, menv, trace, ret, fields[0], ts[0]);
      var o := EvalField(w, p, n, env, trace, fields[0]);
      var o' := Mir.Eval(w, CompileProgram(p), n, menv, trace, CompileField(p, fields[0]));
      ms := [];
      if o.Value? {
        var menv' := [Mir.Binding(Generated(fields[0].name), o'.value)] + menv;
        GeneratedMirrors(p, env, menv, Generated(fields[0].name), o'.value);
        var rest := SimulatesFields(w, p, n, env, menv', o.trace, ret, fields[1..], ts[1..], end);
        var os := EvalFields(w, p, n, env, o.trace, fields[1..]);
        if os.Value? {
          ms := [o'.value] + rest;
          ConsAll(p, ts, o.value, o'.value, os.value, rest);
          BindGeneratedCons(menv, FieldNames(fields), ms);
          assert FieldNames(fields)[1..] == FieldNames(fields[1..]) && ms[1..] == rest;
        }
      }
    }
  }

  lemma EvalsFields(w: World, p: Program, n: nat, env: Environment, menv: Mir.Environment, trace: Trace,
                    fields: seq<Field>, end: Mir.Expression)
    requires fields != []
    ensures var o := EvalField(w, p, n, env, trace, fields[0]);
            EvalFields(w, p, n, env, trace, fields) ==
            if !o.Value? then Fail(o)
            else
              var os := EvalFields(w, p, n, env, o.trace, fields[1..]);
              if os.Value? then Value([o.value] + os.value, os.trace) else os
    ensures var o := Mir.Eval(w, CompileProgram(p), n, menv, trace, CompileField(p, fields[0]));
            Mir.Eval(w, CompileProgram(p), n, menv, trace, CompileFields(p, fields, end)) ==
            if !o.Value? then o
            else
              Mir.Eval(w, CompileProgram(p), n, [Mir.Binding(Generated(fields[0].name), o.value)] + menv, o.trace,
                       CompileFields(p, fields[1..], end))
  {
    hide Eval, Compile;
  }

  lemma BindGeneratedCons(menv: Mir.Environment, names: seq<string>, ms: seq<Mir.Value>)
    requires |names| == |ms| && names != []
    ensures BindGenerated(menv, names, ms) == BindGenerated([Mir.Binding(Generated(names[0]), ms[0])] + menv, names[1..], ms[1..])
  {
  }

  lemma {:induction false} SimulatesConstruct(w: World, p: Program, n: nat, env: Environment, menv: Mir.Environment, trace: Trace,
                           ret: Option<Type>, e: Expression, t: Type)
    requires Ready(p, env, menv, ret, e, t) && e.Construct?
    ensures Agree(p, t, ret, Eval(w, p, n, env, trace, e), Lowered(w, p, n, menv, trace, e))
    decreases 2 * n + 1, e, 0
  {
    hide Represents, RepresentsBare, Mirrors, WellTyped;
    var declared := FindRecord(p.records, e.record).value;
    var ts := InferFields(p, TypesOf(env), ret, e.fields).value;
    var names := FieldNames(e.fields);
    var end := Mir.Record(Mir.Declared(e.record), FieldVariables(p, e.record));
    var ms := SimulatesFields(w, p, n, env, menv, trace, ret, e.fields, ts, end);
    var o := EvalFields(w, p, n, env, trace, e.fields);
    assert t == RecordType(e.record) && GivesAll(declared, names, ts) && DistinctFields(declared);
    assert Lowered(w, p, n, menv, trace, e) == Mir.Eval(w, CompileProgram(p), n, menv, trace, CompileFields(p, e.fields, end));
    hide Infer, InferFields, EvalFields, CompileFields, Compile, CompileProgram, Lowered;
    if o.Value? {
      ConstructReads(w, p, n, menv, o.trace, e.record, declared, names, ts, o.value, ms);
    }
  }

  /** After its fields, a record is put together in the declared order. */
  lemma ConstructReads(w: World, p: Program, n: nat, menv: Mir.Environment, trace: Trace, record: string,
                      declared: seq<FieldType>,
                       names: seq<string>, ts: seq<Type>, vs: seq<Value>, ms: seq<Mir.Value>)
    requires FindRecord(p.records, record) == Some(declared) && DistinctFields(declared)
    requires |names| == |ts| && RepresentsAll(p, ts, vs, ms) && GivesAll(declared, names, ts)
    ensures Agree(p, RecordType(record), None, Constructed(p, record, names, vs, trace),
                  Mir.Eval(w, CompileProgram(p), n, BindGenerated(menv, names, ms), trace,
                           Mir.Record(Mir.Declared(record), FieldVariables(p, record))))
  {
    hide Represents, RepresentsBare, CompileProgram;
    ReadsFields(w, p, n, menv, trace, declared, names, ts, vs, ms, declared);
    var arranged := Arrange(declared, names, vs).value;
    var read := Mir.EvalAll(w, CompileProgram(p), n, BindGenerated(menv, names, ms), trace, FieldVariables(p, record));
    RecordRepresents(p, record, declared, arranged, read.value);
  }

  // ----- Type tests -----

  lemma {:induction false} SimulatesBranch(w: World, p: Program, n: nat, env: Environment, menv: Mir.Environment, trace: Trace,
                        ret: Option<Type>, name: string, v: Value, m: Mir.Value, s: Type, branch: Branch, t: Type)
    requires WellTyped(p) && Mirrors(p, env, menv) && IsUserName(name)
    requires branch.annotation.Some? && IsTestable(branch.annotation.value)
    requires InferBranch(p, TypesOf(env), ret, name, branch) == Some(t)
    requires Represents(p, s, v, m) && IsVariant(s) && Accepts(branch.annotation.value, TypeOf(v))
    ensures Agree(p, t, ret, EvalBranch(w, p, n, env, trace, name, v, branch),
                  Mir.EvalAlternative(w, CompileProgram(p), n, menv, trace, m, CompileBranch(p, name, branch)))
    decreases 2 * n + 1, branch, 0
  {
    hide Represents, RepresentsBare, Mirrors, WellTyped;
    match branch
    case Branch(Some(b), body) =>
      var menv' := AlternativeBinds(w, p, n, env, menv, trace, name, b, Compile(p, body), s, v, m);
      TypesOfCons(Binding(name, Some(b), v), env);
      Simulates(w, p, n, [Binding(name, Some(b), v)] + env, menv', trace, ret, body, t);
  }

  lemma {:induction false} SimulatesDefault(w: World, p: Program, n: nat, env: Environment, menv: Mir.Environment, trace: Trace,
                         ret: Option<Type>, name: string, v: Value, m: Mir.Value, s: Type, branch: Branch, t: Type)
    requires WellTyped(p) && Mirrors(p, env, menv) && IsUserName(name) && branch.annotation == Some(AnyType)
    requires InferBranch(p, TypesOf(env), ret, name, branch) == Some(t)
    requires Represents(p, s, v, m) && IsVariant(s)
    ensures CompileDefaultBranch(p, name, branch).Some?
    ensures Agree(p, t, ret, EvalBranch(w, p, n, env, trace, name, v, branch),
                  Mir.EvalFallback(w, CompileProgram(p), n, menv, trace, m, CompileDefaultBranch(p, name, branch).value))
    decreases 2 * n + 1, branch, 0
  {
    Widen(p, s, AnyType, v, m);
    hide Represents, RepresentsBare, Mirrors, WellTyped;
    match branch
    case Branch(_, body) =>
      BindMirrors(p, env, menv, name, AnyType, v, m);
      TypesOfCons(Binding(name, Some(AnyType), v), env);
      Simulates(w, p, n, [Binding(name, Some(AnyType), v)] + env, [Mir.Binding(name, m)] + menv, trace, ret, body, t);
  }

  lemma {:induction false} InferredBranches(p: Program, ctx: Context, ret: Option<Type>, name: string, branches: seq<Branch>)
    requires InferBranches(p, ctx, ret, name, branches).Some?
    ensures AllTestable(branches)
    ensures forall i :: 0 <= i < |branches| ==>
              InferBranch(p, ctx, ret, name, branches[i]) == Some(InferBranches(p, ctx, ret, name, branches).value[i])
    decreases |branches|
  {
    hide InferBranch;
    if branches != [] {
      InferredBranches(p, ctx, ret, name, branches[1..]);
      assert forall i :: 0 < i < |branches| ==> branches[i] == branches[1..][i - 1];
    }
  }

  /** Where a value goes at both levels. */
  lemma IfTypeSelects(p: Program, name: string, branches: seq<Branch>, otherwise: Option<Branch>, s: Type, v: Value, m: Mir.Value)
    requires AllTestable(branches) && Covers(s, branches, otherwise) && Represents(p, s, v, m) && IsVariant(s)
    requires otherwise.Some? ==> otherwise.value.annotation.Some?
    requires otherwise.Some? ==> otherwise.value.annotation.value.AnyType? || IsTestable(otherwise.value.annotation.value)
    ensures m.Tagged?
    ensures var i := SelectBranch(branches, TypeOf(v));
            var all := CompileBranches(p, name, branches) + CompileElse(p, name, otherwise);
            var j := Mir.SelectAlternative(all, m.tag);
            && i == j
            && (i < |branches| ==> all[i] == CompileBranch(p, name, branches[i]))
            && (i == |branches| ==> otherwise.Some? && Accepts(otherwise.value.annotation.value, TypeOf(v)))
            && (i == |branches| && !otherwise.value.annotation.value.AnyType? ==>
                  |all| == i + 1 && all[i] == CompileBranch(p, name, otherwise.value))
            && (i == |branches| && otherwise.value.annotation.value.AnyType? ==> |all| == i)
  {
    TypeIsConcrete(p, s, v, m);
    var c := TypeOf(v);
    assert m.tag == Concrete(c);
    hide Represents, RepresentsBare, Compile;
    var rest := CompileElse(p, name, otherwise);
    SelectionAgrees(p, name, branches, rest, c);
    CompiledBranches(p, name, branches);
    if SelectBranch(branches, c) == |branches| {
      if s.UnionType? {
        var k :| 0 <= k < |s.members| && s.members[k] == c;
        assert AcceptsBranch(otherwise.value, s.members[k]);
      }
      var t := otherwise.value.annotation.value;
      if !t.AnyType? {
        AlternativeAccepts(name, t, Compile(p, otherwise.value.body), c);
        assert rest == [CompileBranch(p, name, otherwise.value)];
      }
    }
  }

  lemma {:induction false} CompiledBranches(p: Program, name: string, branches: seq<Branch>)
    ensures forall i :: 0 <= i < |branches| ==> CompileBranches(p, name, branches)[i] == CompileBranch(p, name, branches[i])
    decreases |branches|
  {
    hide CompileBranch;
    if branches != [] {
      CompiledBranches(p, name, branches[1..]);
      assert forall i :: 0 < i < |branches| ==> branches[i] == branches[1..][i - 1];
    }
  }

  lemma {:induction false} SimulatesIfType(w: World, p: Program, n: nat, env: Environment, menv: Mir.Environment, trace: Trace,
                        ret: Option<Type>, e: Expression, t: Type)
    requires Ready(p, env, menv, ret, e, t) && e.IfType?
    ensures Agree(p, t, ret, Eval(w, p, n, env, trace, e), Lowered(w, p, n, menv, trace, e))
    decreases 2 * n + 1, e, 0
  {
    hide Represents, RepresentsBare, Mirrors, WellTyped, CompileAlternative, InferBranch;
    var s := Infer(p, TypesOf(env), ret, e.argument).value;
    IfTypeInferred(p, TypesOf(env), ret, e, t);
    EvalsIfType(w, p, n, env, trace, e);
    EvalsCase(w, p, n, menv, trace, e);
    hide Eval, Mir.Eval, Infer, Compile, EvalBranch, Mir.EvalAlternative, Mir.EvalFallback;
    Simulates(w, p, n, env, menv, trace, ret, e.argument, s);
    var o, o' := Eval(w, p, n, env, trace, e.argument), Lowered(w, p, n, menv, trace, e.argument);
    if o.Value? {
      var v, m := o.value, o'.value;
      IfTypeSelects(p, e.name, e.branches, e.otherwise, s, v, m);
      var i := SelectBranch(e.branches, TypeOf(v));
      if i < |e.branches| {
        SimulatesBranch(w, p, n, env, menv, o.trace, ret, e.name, v, m, s, e.branches[i], t);
      } else if e.otherwise.value.annotation.value.AnyType? {
        assert CompileDefault(p, e.name, e.otherwise) == CompileDefaultBranch(p, e.name, e.otherwise.value);
        SimulatesDefault(w, p, n, env, menv, o.trace, ret, e.name, v, m, s, e.otherwise.value, t);
      } else {
        SimulatesBranch(w, p, n, env, menv, o.trace, ret, e.name, v, m, s, e.otherwise.value, t);
      }
    }
  }

  lemma EvalsIfType(w: World, p: Program, n: nat, env: Environment, trace: Trace, e: Expression)
    requires e.IfType?
    ensures var o := Eval(w, p, n, env, trace, e.argument);
            if !o.Value? then Eval(w, p, n, env, trace, e) == o
            else
              var i := SelectBranch(e.branches, TypeOf(o.value));
              Eval(w, p, n, env, trace, e) ==
              if i < |e.branches| then EvalBranch(w, p, n, env, o.trace, e.name, o.value, e.branches[i])
              else if e.otherwise.Some? then EvalBranch(w, p, n, env, o.trace, e.name, o.value, e.otherwise.value)
              else Stuck
  {
  }

  lemma EvalsCase(w: World, p: Program, n: nat, menv: Mir.Environment, trace: Trace, e: Expression)
    requires e.IfType?
    ensures var o := Lowered(w, p, n, menv, trace, e.argument);
            var all := CompileBranches(p, e.name, e.branches) + CompileElse(p, e.name, e.otherwise);
            var fallback := CompileDefault(p, e.name, e.otherwise);
            if !o.Value? then Lowered(w, p, n, menv, trace, e) == o
            else if !o.value.Tagged? then Lowered(w, p, n, menv, trace, e) == Stuck
            else
              var i := Mir.SelectAlternative(all, o.value.tag);
              Lowered(w, p, n, menv, trace, e) ==
              if i < |all| then Mir.EvalAlternative(w, CompileProgram(p), n, menv, o.trace, o.value, all[i])
              else if fallback.Some? then Mir.EvalFallback(w, CompileProgram(p), n, menv, o.trace, o.value, fallback.value)
              else Stuck
  {
  }

  lemma IfTypeInferred(p: Program, ctx: Context, ret: Option<Type>, e: Expression, t: Type)
    requires e.IfType? && Infer(p, ctx, ret, e) == Some(t)
    ensures IsUserName(e.name) && AllTestable(e.branches)
    ensures Infer(p, ctx, ret, e.argument).Some? && IsVariant(Infer(p, ctx, ret, e.argument).value)
    ensures Covers(Infer(p, ctx, ret, e.argument).value, e.branches, e.otherwise)
    ensures forall i :: 0 <= i < |e.branches| ==> InferBranch(p, ctx, ret, e.name, e.branches[i]) == Some(t)
    ensures e.otherwise.Some? ==>
              && e.otherwise.value.annotation.Some?
              && (e.otherwise.value.annotation.value.AnyType? || IsTestable(e.otherwise.value.annotation.value))
              && InferBranch(p, ctx, ret, e.name, e.otherwise.value) == Some(t)
  {
    hide InferBranch;
    var types := InferBranches(p, ctx, ret, e.name, e.branches).value;
    var elses := InferElse(p, ctx, ret, e.name, e.otherwise).value;
    InferredBranches(p, ctx, ret, e.name, e.branches);
    var all := elses + types;
    assert forall i :: 0 <= i < |types| ==> types[i] == all[|elses| + i];
    assert AllAre(all, t);
  }

  // ----- Early returns -----

  /** Errors are returned early; everything else goes to the only alternative. */
  lemma TryEvaluates(w: World, q: Mir.Program, n: nat, menv: Mir.Environment, trace: Trace, operand: Mir.Expression,
                     success: Mir.Alternative)
    ensures var handler := Mir.Variant(Concrete(ErrorType), Mir.Variable(ERROR_NAME));
            var e := Mir.Case(Mir.TryOperation(operand, ERROR_NAME, Concrete(ErrorType), handler), [success], None);
            Mir.Eval(w, q, n, menv, trace, e) ==
            match Mir.Eval(w, q, n, menv, trace, operand)
            case Value(m, trace) =>
              if !m.Tagged? then Stuck
              else if m.tag == Concrete(ErrorType) then Return(Mir.Tagged(Concrete(ErrorType), m.payload), trace)
              else if m.tag in success.types then Mir.EvalAlternative(w, q, n, menv, trace, m, success)
              else Stuck
            case o => o
  {
    var handler := Mir.Variant(Concrete(ErrorType), Mir.Variable(ERROR_NAME));
    var try_ := Mir.TryOperation(operand, ERROR_NAME, Concrete(ErrorType), handler);
    var o := Mir.Eval(w, q, n, menv, trace, operand);
    if o.Value? && o.value.Tagged? && o.value.tag == Concrete(ErrorType) {
      var menv' := [Mir.Binding(ERROR_NAME, o.value.payload)] + menv;
      assert Mir.Eval(w, q, n, menv', o.trace, Mir.Variable(ERROR_NAME)) == Value(o.value.payload, o.trace);
      assert Mir.Eval(w, q, n, menv', o.trace, handler) == Value(Mir.Tagged(Concrete(ErrorType), o.value.payload), o.trace);
      assert Mir.Eval(w, q, n, menv, trace, try_) == Return(Mir.Tagged(Concrete(ErrorType), o.value.payload), o.trace);
    } else if o.Value? && o.value.Tagged? {
      assert Mir.Eval(w, q, n, menv, trace, try_) == o;
      assert Mir.SelectAlternative([success], o.value.tag) == if o.value.tag in success.types then 0 else 1;
    }
  }

  lemma {:induction false} SimulatesTry(w: World, p: Program, n: nat, env: Environment, menv: Mir.Environment, trace: Trace,
                     ret: Option<Type>, e: Expression, t: Type)
    requires Ready(p, env, menv, ret, e, t) && e.Try?
    ensures Agree(p, t, ret, Eval(w, p, n, env, trace, e), Lowered(w, p, n, menv, trace, e))
    decreases 2 * n + 1, e, 0
  {
    hide Mirrors, WellTyped;
    var s := Infer(p, TypesOf(env), ret, e.argument).value;
    Simulates(w, p, n, env, menv, trace, ret, e.argument, s);
    var success := CompileAlternative(SUCCESS_NAME, t, Mir.Variable(SUCCESS_NAME));
    TryEvaluates(w, CompileProgram(p), n, menv, trace, Compile(p, e.argument), success);
    var o, o' := Eval(w, p, n, env, trace, e.argument), Lowered(w, p, n, menv, trace, e.argument);
    if o.Value? {
      var v, m := o.value, o'.value;
      TypeIsConcrete(p, s, v, m);
      if TypeOf(v) == ErrorType {
        Widen(p, s, ret.value, v, m);
      } else {
        if m.tag == Concrete(ErrorType) {
          TagsAreUnique(TypeOf(v), ErrorType);
        }
        var k :| 0 <= k < |s.members| && s.members[k] == TypeOf(v);
        assert Accepts(t, TypeOf(v));
        AlternativeAccepts(SUCCESS_NAME, t, Mir.Variable(SUCCESS_NAME), TypeOf(v));
        assert m.tag in success.types;
        hide Represents, RepresentsBare;
        var menv' := AlternativeBinds(w, p, n, env, menv, o.trace, SUCCESS_NAME, t, Mir.Variable(SUCCESS_NAME), s, v, m);
        assert Mir.Eval(w, CompileProgram(p), n, menv', o.trace, Mir.Variable(SUCCESS_NAME)) == Value(Narrowed(t, m), o.trace);
      }
    }
  }

  // ----- All expressions -----

  /**
   Evaluating a lowered expression agrees with evaluating the expression, for every number of nested
   calls: it has the same effects in the same order, returns early exactly when the expression
   does, and yields the represented result.  Neither gets stuck.
   */
  lemma {:induction false} Simulates(w: World, p: Program, n: nat, env: Environment, menv: Mir.Environment, trace: Trace,
                  ret: Option<Type>, e: Expression, t: Type)
    requires Ready(p, env, menv, ret, e, t)
    ensures Agree(p, t, ret, Eval(w, p, n, env, trace, e), Lowered(w, p, n, menv, trace, e))
    decreases 2 * n + 1, e, 1
  {
    hide Eval, Mir.Eval, Compile, Infer, Represents, RepresentsBare, Mirrors, WellTyped, Agree, Lowered;
    match e
    case Constant(base) => SimulatesConstant(w, p, n, env, menv, trace, ret, e, t);
    case Variable(_) => SimulatesVariable(w, p, n, env, menv, trace, ret, e, t);
    case If(_, _, _) => SimulatesIf(w, p, n, env, menv, trace, ret, e, t);
    case Let(_, _, _, _) => SimulatesLet(w, p, n, env, menv, trace, ret, e, t);
    case Lambda(_, _, _) => SimulatesLambda(w, p, n, env, menv, trace, ret, e, t);
    case Call(_, _) => SimulatesCall(w, p, n, env, menv, trace, ret, e, t);
    case IfType(_, _, _, _) => SimulatesIfType(w, p, n, env, menv, trace, ret, e, t);
    case Coerce(_, _, _) => SimulatesCoerce(w, p, n, env, menv, trace, ret, e, t);
    case Construct(_, _) => SimulatesConstruct(w, p, n, env, menv, trace, ret, e, t);
    case Select(_, _, _) => SimulatesSelect(w, p, n, env, menv, trace, ret, e, t);
    case Update(_, _, _) => SimulatesUpdate(w, p, n, env, menv, trace, ret, e, t);
    case Not(_) => SimulatesNot(w, p, n, env, menv, trace, ret, e, t);
    case And(_, _) => SimulatesJunction(w, p, n, env, menv, trace, ret, e, t);
    case Or(_, _) => SimulatesJunction(w, p, n, env, menv, trace, ret, e, t);
    case Numeric(_, _, _) => SimulatesNumeric(w, p, n, env, menv, trace, ret, e, t);
    case NotEqual(_, _) => SimulatesNotEqual(w, p, n, env, menv, trace, ret, e, t);
    case Try(_, _) => SimulatesTry(w, p, n, env, menv, trace, ret, e, t);
  }

  lemma SimulatesConstant(w: World, p: Program, n: nat, env: Environment, menv: Mir.Environment, trace: Trace,
                          ret: Option<Type>, e: Expression, t: Type)
    requires Ready(p, env, menv, ret, e, t) && e.Constant?
    ensures Agree(p, t, ret, Eval(w, p, n, env, trace, e), Lowered(w, p, n, menv, trace, e))
  {
  }
}
