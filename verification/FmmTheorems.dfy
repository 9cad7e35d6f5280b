/** Cases and tries are compiled to tag comparisons and returns without a change of meaning. */
module FmmTheorems {
  import opened Sums
  import opened Semantics
  import opened Fmm
  import Mir
  import Hir

  // ----- Values -----

  /** Values stay what they are; the bodies of closures are compiled. */
  function LowerValue(v: Mir.Value): Value
    decreases v, 0
  {
    match v
    case Plain(base) => Plain(base)
    case Structure(record, fields) => Structure(record, LowerValues(fields))
    case Tagged(tag, payload) => Tagged(tag, LowerValue(payload))
    case Closure(self, arguments, body, env) => Closure(self, arguments, Compile(body), LowerEnvironment(env))
    case Foreign(name, arity, result) => Foreign(name, arity, result)
    case Collection(contents) => Collection(contents)
  }

  function LowerValues(vs: seq<Mir.Value>): (r: seq<Value>)
    ensures |r| == |vs| && forall i :: 0 <= i < |vs| ==> r[i] == LowerValue(vs[i])
    decreases vs, 0
  {
    if vs == [] then []
    else
      assert forall i :: 0 < i < |vs| ==> vs[i] == vs[1..][i - 1];
      [LowerValue(vs[0])] + LowerValues(vs[1..])
  }

  function LowerEnvironment(env: Mir.Environment): (r: Environment)
    ensures |r| == |env|
    decreases env, 0
  {
    if env == [] then [] else [LowerBinding(env[0])] + LowerEnvironment(env[1..])
  }

  function LowerBinding(b: Mir.Binding): Binding
    decreases b, 0
  {
    match b
    case Binding(name, value) => Binding(name, LowerValue(value))
  }

  function LowerResult(o: Mir.Result): Result {
    match o
    case Value(v, trace) => Value(LowerValue(v), trace)
    case Return(v, trace) => Return(LowerValue(v), trace)
    case Stuck => Stuck
    case Timeout => Timeout
  }

  function LowerResults(o: Mir.Results): Results {
    match o
    case Value(vs, trace) => Value(LowerValues(vs), trace)
    case Return(v, trace) => Return(LowerValue(v), trace)
    case Stuck => Stuck
    case Timeout => Timeout
  }

  // ----- Environments -----

  lemma {:induction false} LookupLowers(env: Mir.Environment, name: string)
    ensures Lookup(LowerEnvironment(env), name) ==
            match Mir.Lookup(env, name)
            case None => None
            case Some(v) => Some(LowerValue(v))
  {
    hide LowerValue;
    if env != [] {
      match env[0] {
        case Binding(_, _) =>
          LookupLowers(env[1..], name);
          assert LowerEnvironment(env)[1..] == LowerEnvironment(env[1..]);
      }
    }
  }

  lemma {:induction false} FindLowers(ds: seq<Mir.Definition>, name: string)
    ensures FindDefinition(CompileDefinitions(ds), name) ==
            match Mir.FindDefinition(ds, name)
            case None => None
            case Some(d) => Some(Definition(d.name, d.arguments, Compile(d.body)))
  {
    hide Compile;
    if ds != [] {
      FindLowers(ds[1..], name);
      assert CompileDefinitions(ds)[1..] == CompileDefinitions(ds[1..]);
    }
  }

  lemma ConsLowers(name: string, v: Mir.Value, env: Mir.Environment)
    ensures LowerEnvironment([Mir.Binding(name, v)] + env) == [Binding(name, LowerValue(v))] + LowerEnvironment(env)
  {
    hide LowerValue;
    var env' := [Mir.Binding(name, v)] + env;
    assert env'[1..] == env;
    assert LowerBinding(env'[0]) == Binding(name, LowerValue(v));
  }

  lemma {:induction false} BindAllLowers(env: Mir.Environment, arguments: seq<string>, vs: seq<Mir.Value>)
    requires |arguments| == |vs|
    ensures LowerEnvironment(Mir.BindAll(env, arguments, vs)) == BindAll(LowerEnvironment(env), arguments, LowerValues(vs))
    decreases |arguments|
  {
    hide LowerValue, LowerEnvironment;
    if arguments != [] {
      ConsLowers(arguments[0], vs[0], env);
      BindAllLowers([Mir.Binding(arguments[0], vs[0])] + env, arguments[1..], vs[1..]);
      assert LowerValues(vs)[1..] == LowerValues(vs[1..]);
    }
  }

  lemma {:induction false} StoreLowers(fields: seq<Mir.Value>, indices: seq<nat>, vs: seq<Mir.Value>)
    requires |indices| == |vs|
    ensures Store(LowerValues(fields), indices, LowerValues(vs)) ==
            match Mir.Store(fields, indices, vs)
            case None => None
            case Some(stored) => Some(LowerValues(stored))
    decreases |indices|
  {
    hide LowerValue;
    if indices != [] && indices[0] < |fields| {
      StoreLowers(fields[indices[0] := vs[0]], indices[1..], vs[1..]);
      assert LowerValues(vs)[1..] == LowerValues(vs[1..]);
      assert LowerValues(fields[indices[0] := vs[0]]) == LowerValues(fields)[indices[0] := LowerValue(vs[0])];
    }
  }

  // ----- Tag comparisons -----

  lemma EvalsTag(w: World, p: Program, n: nat, env: Environment, regs: seq<Value>, trace: Trace, tag: Mir.Type)
    requires |regs| > 0 && regs[0].Tagged?
    ensures Eval(w, p, n, env, regs, trace, TagIs(Register(0), tag)) == Value(Plain(Boolean(regs[0].tag == tag)), trace)
  {
    assert Eval(w, p, n, env, regs, trace, Register(0)) == Value(regs[0], trace);
  }

  lemma EvalsOr(w: World, p: Program, n: nat, env: Environment, regs: seq<Value>, trace: Trace, a: Code, b: Code,
                x: bool, y: bool)
    requires Eval(w, p, n, env, regs, trace, a) == Value(Plain(Boolean(x)), trace)
    requires Eval(w, p, n, env, regs, trace, b) == Value(Plain(Boolean(y)), trace)
    ensures Eval(w, p, n, env, regs, trace, BitwiseOr(a, b)) == Value(Plain(Boolean(x || y)), trace)
  {
  }

  /** The disjunction of tag comparisons tells whether the tag is among the given ones. */
  lemma {:induction false} ComparesTags(w: World, p: Program, n: nat, env: Environment, regs: seq<Value>, trace: Trace,
                      types: seq<Mir.Type>)
    requires |regs| > 0 && regs[0].Tagged?
    ensures Eval(w, p, n, env, regs, trace, CompareTags(types)) == Value(Plain(Boolean(regs[0].tag in types)), trace)
    decreases |types|
  {
    if types == [] {
      assert CompareTags(types) == Constant(Boolean(false));
    } else {
      hide Eval;
      var init, last := types[..|types| - 1], types[|types| - 1];
      ComparesTags(w, p, n, env, regs, trace, init);
      EvalsTag(w, p, n, env, regs, trace, last);
      EvalsOr(w, p, n, env, regs, trace, CompareTags(init), TagIs(Register(0), last), regs[0].tag in init, regs[0].tag == last);
      assert types == init + [last];
    }
  }

  lemma Downcasts(w: World, p: Program, n: nat, env: Environment, regs: seq<Value>, trace: Trace, types: seq<Mir.Type>,
                  v: Mir.Value)
    requires |regs| > 0 && regs[0] == LowerValue(v) && v.Tagged?
    ensures Eval(w, p, n, env, regs, trace, Downcast(types, Register(0))) == Value(LowerValue(Mir.Narrow(v, types)), trace)
  {
    assert Eval(w, p, n, env, regs, trace, Register(0)) == Value(regs[0], trace);
  }

  // ----- Simulation -----

  function Lowered(w: World, p: Mir.Program, n: nat, env: Mir.Environment, regs: seq<Value>, trace: Trace,
                   e: Mir.Expression): Result {
    Eval(w, CompileProgram(p), n, LowerEnvironment(env), regs, trace, Compile(e))
  }

  lemma LowersVariable(w: World, p: Mir.Program, n: nat, env: Mir.Environment, regs: seq<Value>, trace: Trace, e: Mir.Expression)
    requires e.Variable?
    ensures Lowered(w, p, n, env, regs, trace, e) == LowerResult(Mir.Eval(w, p, n, env, trace, e))
  {
    LookupLowers(env, e.name);
    FindLowers(p.functions, e.name);
    assert LowerEnvironment([]) == [];
  }

  lemma {:induction false} LowersIf(w: World, p: Mir.Program, n: nat, env: Mir.Environment, regs: seq<Value>,
                      trace: Trace, e: Mir.Expression)
    requires e.If? && Mir.Eval(w, p, n, env, trace, e) != Stuck
    ensures Lowered(w, p, n, env, regs, trace, e) == LowerResult(Mir.Eval(w, p, n, env, trace, e))
    decreases 2 * n + 1, e, 0
  {
    hide LowerEnvironment;
    Lowers(w, p, n, env, regs, trace, e.condition);
    var o := Mir.Eval(w, p, n, env, trace, e.condition);
    if o.Value? {
      Lowers(w, p, n, env, regs, o.trace, if o.value.base.boolean then e.consequence else e.alternative);
    }
  }

  lemma {:induction false} LowersLet(w: World, p: Mir.Program, n: nat, env: Mir.Environment, regs: seq<Value>,
                      trace: Trace, e: Mir.Expression)
    requires e.Let? && Mir.Eval(w, p, n, env, trace, e) != Stuck
    ensures Lowered(w, p, n, env, regs, trace, e) == LowerResult(Mir.Eval(w, p, n, env, trace, e))
    decreases 2 * n + 1, e, 0
  {
    hide LowerEnvironment, LowerValue;
    Lowers(w, p, n, env, regs, trace, e.bound);
    var o := Mir.Eval(w, p, n, env, trace, e.bound);
    if o.Value? {
      ConsLowers(e.name, o.value, env);
      Lowers(w, p, n, [Mir.Binding(e.name, o.value)] + env, regs, o.trace, e.body);
    }
  }

  lemma {:induction false} LowersClosure(w: World, p: Mir.Program, n: nat, env: Mir.Environment, regs: seq<Value>,
                      trace: Trace, e: Mir.Expression)
    requires e.LetRecursive? && Mir.Eval(w, p, n, env, trace, e) != Stuck
    ensures Lowered(w, p, n, env, regs, trace, e) == LowerResult(Mir.Eval(w, p, n, env, trace, e))
    decreases 2 * n + 1, e, 0
  {
    hide LowerEnvironment;
    var closure := Mir.Closure(e.name, e.arguments, e.functionBody, env);
    ConsLowers(e.name, closure, env);
    Lowers(w, p, n, [Mir.Binding(e.name, closure)] + env, regs, trace, e.body);
  }

  lemma {:induction false} LowersAll(w: World, p: Mir.Program, n: nat, env: Mir.Environment, regs: seq<Value>,
                      trace: Trace, es: seq<Mir.Expression>)
    requires Mir.EvalAll(w, p, n, env, trace, es) != Stuck
    ensures EvalAll(w, CompileProgram(p), n, LowerEnvironment(env), regs, trace, CompileAll(es))
         == LowerResults(Mir.EvalAll(w, p, n, env, trace, es))
    decreases 2 * n + 1, es, 0
  {
    hide LowerEnvironment, LowerValue;
    if es != [] {
      Lowers(w, p, n, env, regs, trace, es[0]);
      var o := Mir.Eval(w, p, n, env, trace, es[0]);
      assert CompileAll(es)[1..] == CompileAll(es[1..]);
      if o.Value? {
        LowersAll(w, p, n, env, regs, o.trace, es[1..]);
        var os := Mir.EvalAll(w, p, n, env, o.trace, es[1..]);
        hide Eval, Mir.Eval, Compile;
        if os.Value? {
          var vs := [o.value] + os.value;
          assert vs[0] == o.value && vs[1..] == os.value;
          assert LowerValues(vs) == [LowerValue(o.value)] + LowerValues(os.value);
        }
      }
    }
  }

  lemma {:induction false} LowersApply(w: World, p: Mir.Program, n: nat, f: Mir.Value, vs: seq<Mir.Value>, trace: Trace)
    requires Mir.Apply(w, p, n, f, vs, trace) != Stuck
    ensures Apply(w, CompileProgram(p), n, LowerValue(f), LowerValues(vs), trace) == LowerResult(Mir.Apply(w, p, n, f, vs, trace))
    decreases 2 * n
  {
    hide Eval, Mir.Eval, LowerEnvironment, Compile;
    match f
    case Closure(self, arguments, body, env) =>
      if n > 0 {
        ConsLowers(self, f, env);
        BindAllLowers([Mir.Binding(self, f)] + env, arguments, vs);
        Lowers(w, p, n - 1, Mir.BindAll([Mir.Binding(self, f)] + env, arguments, vs), [], trace, body);
      }
    case Foreign(name, arity, result) =>
      assert forall i :: 0 <= i < |vs| ==> vs[i].Plain? && LowerValues(vs)[i] == Plain(vs[i].base);
      assert Bases(LowerValues(vs)) == Mir.Bases(vs);
  }

  lemma {:induction false} LowersCall(w: World, p: Mir.Program, n: nat, env: Mir.Environment, regs: seq<Value>,
                      trace: Trace, e: Mir.Expression)
    requires e.Call? && Mir.Eval(w, p, n, env, trace, e) != Stuck
    ensures Lowered(w, p, n, env, regs, trace, e) == LowerResult(Mir.Eval(w, p, n, env, trace, e))
    decreases 2 * n + 1, e, 0
  {
    hide LowerEnvironment, LowerValue;
    Lowers(w, p, n, env, regs, trace, e.callee);
    var o := Mir.Eval(w, p, n, env, trace, e.callee);
    if o.Value? {
      LowersAll(w, p, n, env, regs, o.trace, e.operands);
      var os := Mir.EvalAll(w, p, n, env, o.trace, e.operands);
      if os.Value? {
        LowersApply(w, p, n, o.value, os.value, os.trace);
      }
    }
  }

  /** The chain of comparisons reaches what the first alternative with the right tag does, or its end. */
  lemma {:induction false} LowersAlternatives(w: World, p: Mir.Program, n: nat, env: Mir.Environment, regs: seq<Value>,
                      trace: Trace,
                           v: Mir.Value, alternatives: seq<Mir.Alternative>, end: Code)
    requires v.Tagged? && |regs| > 0 && regs[0] == LowerValue(v)
    requires var i := Mir.SelectAlternative(alternatives, v.tag);
             i < |alternatives| ==> Mir.EvalAlternative(w, p, n, env, trace, v, alternatives[i]) != Stuck
    ensures var i := Mir.SelectAlternative(alternatives, v.tag);
            Eval(w, CompileProgram(p), n, LowerEnvironment(env), regs, trace, CompileAlternatives(alternatives, end)) ==
            if i < |alternatives| then LowerResult(Mir.EvalAlternative(w, p, n, env, trace, v, alternatives[i]))
            else Eval(w, CompileProgram(p), n, LowerEnvironment(env), regs, trace, end)
    decreases 2 * n + 1, alternatives, 0
  {
    hide LowerEnvironment, Mir.Eval, Mir.EvalAlternative;
    if alternatives != [] {
      ComparesTags(w, CompileProgram(p), n, LowerEnvironment(env), regs, trace, alternatives[0].types);
      EvalsChain(w, CompileProgram(p), n, LowerEnvironment(env), regs, trace, alternatives, end, v.tag);
      hide Eval, CompileAlternatives;
      if v.tag in alternatives[0].types {
        LowersAlternative(w, p, n, env, regs, trace, v, alternatives[0]);
      } else {
        assert Mir.SelectAlternative(alternatives, v.tag) == 1 + Mir.SelectAlternative(alternatives[1..], v.tag);
        LowersAlternatives(w, p, n, env, regs, trace, v, alternatives[1..], end);
      }
    }
  }

  /** The first comparison of a chain. */
  lemma EvalsChain(w: World, p: Program, n: nat, env: Environment, regs: seq<Value>, trace: Trace,
                   alternatives: seq<Mir.Alternative>, end: Code, tag: Mir.Type)
    requires alternatives != []
    requires Eval(w, p, n, env, regs, trace, CompareTags(alternatives[0].types)) ==
             Value(Plain(Boolean(tag in alternatives[0].types)), trace)
    ensures Eval(w, p, n, env, regs, trace, CompileAlternatives(alternatives, end)) ==
            Eval(w, p, n, env, regs, trace,
                 if tag in alternatives[0].types then CompileAlternative(alternatives[0])
                 else CompileAlternatives(alternatives[1..], end))
  {
    hide CompareTags, CompileAlternative;
  }

  lemma {:induction false} LowersAlternative(w: World, p: Mir.Program, n: nat, env: Mir.Environment, regs: seq<Value>,
                      trace: Trace,
                          v: Mir.Value, alternative: Mir.Alternative)
    requires v.Tagged? && |regs| > 0 && regs[0] == LowerValue(v)
    requires Mir.EvalAlternative(w, p, n, env, trace, v, alternative) != Stuck
    ensures Eval(w, CompileProgram(p), n, LowerEnvironment(env), regs, trace, CompileAlternative(alternative))
         == LowerResult(Mir.EvalAlternative(w, p, n, env, trace, v, alternative))
    decreases 2 * n + 1, alternative, 0
  {
    hide LowerEnvironment, LowerValue, Mir.Eval;
    match alternative
    case Alternative(types, name, expression) =>
      Downcasts(w, CompileProgram(p), n, LowerEnvironment(env), regs, trace, types, v);
      var narrowed := Mir.Narrow(v, types);
      ConsLowers(name, narrowed, env);
      Lowers(w, p, n, [Mir.Binding(name, narrowed)] + env, regs, trace, expression);
  }

  lemma {:induction false} LowersFallback(w: World, p: Mir.Program, n: nat, env: Mir.Environment, regs: seq<Value>, trace: Trace,
                       v: Mir.Value, fallback: Mir.Fallback)
    requires |regs| > 0 && regs[0] == LowerValue(v)
    requires Mir.EvalFallback(w, p, n, env, trace, v, fallback) != Stuck
    ensures Eval(w, CompileProgram(p), n, LowerEnvironment(env), regs, trace, CompileDefault(fallback))
         == LowerResult(Mir.EvalFallback(w, p, n, env, trace, v, fallback))
    decreases 2 * n + 1, fallback, 0
  {
    hide LowerEnvironment, LowerValue, Mir.Eval;
    match fallback
    case Fallback(name, expression) =>
      assert Eval(w, CompileProgram(p), n, LowerEnvironment(env), regs, trace, Register(0)) == Value(regs[0], trace);
      ConsLowers(name, v, env);
      Lowers(w, p, n, [Mir.Binding(name, v)] + env, regs, trace, expression);
  }

  lemma {:induction false} LowersCase(w: World, p: Mir.Program, n: nat, env: Mir.Environment, regs: seq<Value>,
                      trace: Trace, e: Mir.Expression)
    requires e.Case? && Mir.Eval(w, p, n, env, trace, e) != Stuck
    ensures Lowered(w, p, n, env, regs, trace, e) == LowerResult(Mir.Eval(w, p, n, env, trace, e))
    decreases 2 * n + 1, e, 0
  {
    hide LowerEnvironment, LowerValue, Mir.EvalAlternative, Mir.EvalFallback;
    Lowers(w, p, n, env, regs, trace, e.argument);
    var o := Mir.Eval(w, p, n, env, trace, e.argument);
    if o.Value? {
      var regs' := [LowerValue(o.value)] + regs;
      var end := CompileFallback(e.fallback);
      LowersAlternatives(w, p, n, env, regs', o.trace, o.value, e.alternatives, end);
      if Mir.SelectAlternative(e.alternatives, o.value.tag) == |e.alternatives| {
        assert end == CompileDefault(e.fallback.value);
        LowersFallback(w, p, n, env, regs', o.trace, o.value, e.fallback.value);
      }
      assert Lowered(w, p, n, env, regs, trace, e)
          == Eval(w, CompileProgram(p), n, LowerEnvironment(env), regs', o.trace, CompileAlternatives(e.alternatives, end));
    }
  }

  /** An error is bound and handled, and the function returns what its handler yields. */
  lemma {:induction false} LowersHandler(w: World, p: Mir.Program, n: nat, env: Mir.Environment, regs: seq<Value>, trace: Trace,
                      v: Mir.Value, name: string, type_: Mir.Type, handler: Mir.Expression)
    requires v.Tagged? && |regs| > 0 && regs[0] == LowerValue(v)
    requires Mir.Eval(w, p, n, [Mir.Binding(name, Mir.Narrow(v, [type_]))] + env, trace, handler) != Stuck
    ensures var r := Mir.Eval(w, p, n, [Mir.Binding(name, Mir.Narrow(v, [type_]))] + env, trace, handler);
            Eval(w, CompileProgram(p), n, LowerEnvironment(env), regs, trace,
                 ReturnFrom(Let(name, Downcast([type_], Register(0)), Compile(handler))))
            == if r.Value? then Return(LowerValue(r.value), r.trace) else LowerResult(r)
    decreases 2 * n + 1, handler, 2
  {
    hide LowerEnvironment, LowerValue, Mir.Eval, Compile;
    var narrowed := Mir.Narrow(v, [type_]);
    Downcasts(w, CompileProgram(p), n, LowerEnvironment(env), regs, trace, [type_], v);
    ConsLowers(name, narrowed, env);
    Lowers(w, p, n, [Mir.Binding(name, narrowed)] + env, regs, trace, handler);
    var handled := Let(name, Downcast([type_], Register(0)), Compile(handler));
    assert Eval(w, CompileProgram(p), n, LowerEnvironment(env), regs, trace, handled)
        == LowerResult(Mir.Eval(w, p, n, [Mir.Binding(name, narrowed)] + env, trace, handler));
  }

  lemma {:induction false} LowersTry(w: World, p: Mir.Program, n: nat, env: Mir.Environment, regs: seq<Value>,
                      trace: Trace, e: Mir.Expression)
    requires e.TryOperation? && Mir.Eval(w, p, n, env, trace, e) != Stuck
    ensures Lowered(w, p, n, env, regs, trace, e) == LowerResult(Mir.Eval(w, p, n, env, trace, e))
    decreases 2 * n + 1, e, 0
  {
    hide LowerEnvironment;
    Lowers(w, p, n, env, regs, trace, e.operand);
    var o := Mir.Eval(w, p, n, env, trace, e.operand);
    if o.Value? {
      var q, env', regs' := CompileProgram(p), LowerEnvironment(env), [LowerValue(o.value)] + regs;
      var handled := ReturnFrom(Let(e.name, Downcast([e.type_], Register(0)), Compile(e.handler)));
      assert Eval(w, q, n, env', regs', o.trace, Register(0)) == Value(regs'[0], o.trace);
      assert Eval(w, q, n, env', regs', o.trace, TagIs(Register(0), e.type_))
          == Value(Plain(Boolean(o.value.tag == e.type_)), o.trace);
      assert Lowered(w, p, n, env, regs, trace, e)
          == Eval(w, q, n, env', regs', o.trace, If(TagIs(Register(0), e.type_), handled, Register(0)));
      if o.value.tag == e.type_ {
        LowersHandler(w, p, n, env, regs', o.trace, o.value, e.name, e.type_, e.handler);
      }
    }
  }

  lemma {:induction false} LowersVariant(w: World, p: Mir.Program, n: nat, env: Mir.Environment, regs: seq<Value>,
                      trace: Trace, e: Mir.Expression)
    requires e.Variant? && Mir.Eval(w, p, n, env, trace, e) != Stuck
    ensures Lowered(w, p, n, env, regs, trace, e) == LowerResult(Mir.Eval(w, p, n, env, trace, e))
    decreases 2 * n + 1, e, 0
  {
    hide LowerEnvironment;
    Lowers(w, p, n, env, regs, trace, e.payload);
  }

  lemma {:induction false} LowersRecord(w: World, p: Mir.Program, n: nat, env: Mir.Environment, regs: seq<Value>,
                      trace: Trace, e: Mir.Expression)
    requires e.Record? && Mir.Eval(w, p, n, env, trace, e) != Stuck
    ensures Lowered(w, p, n, env, regs, trace, e) == LowerResult(Mir.Eval(w, p, n, env, trace, e))
    decreases 2 * n + 1, e, 0
  {
    hide LowerEnvironment;
    LowersAll(w, p, n, env, regs, trace, e.operands);
  }

  lemma {:induction false} LowersField(w: World, p: Mir.Program, n: nat, env: Mir.Environment, regs: seq<Value>,
                      trace: Trace, e: Mir.Expression)
    requires e.RecordField? && Mir.Eval(w, p, n, env, trace, e) != Stuck
    ensures Lowered(w, p, n, env, regs, trace, e) == LowerResult(Mir.Eval(w, p, n, env, trace, e))
    decreases 2 * n + 1, e, 0
  {
    hide LowerEnvironment;
    Lowers(w, p, n, env, regs, trace, e.argument);
  }

  lemma {:induction false} LowersUpdateFields(w: World, p: Mir.Program, n: nat, env: Mir.Environment, regs: seq<Value>,
                      trace: Trace,
                           fields: seq<Mir.UpdateField>)
    requires Mir.EvalUpdateFields(w, p, n, env, trace, fields) != Stuck
    ensures EvalUpdateFields(w, CompileProgram(p), n, LowerEnvironment(env), regs, trace, CompileUpdates(fields))
         == LowerResults(Mir.EvalUpdateFields(w, p, n, env, trace, fields))
    decreases 2 * n + 1, fields, 0
  {
    hide LowerEnvironment, LowerValue, Eval, Mir.Eval;
    if fields != [] {
      LowersUpdateField(w, p, n, env, regs, trace, fields[0]);
      var o := Mir.EvalUpdateField(w, p, n, env, trace, fields[0]);
      assert CompileUpdates(fields)[1..] == CompileUpdates(fields[1..]);
      hide Mir.EvalUpdateField, EvalUpdateField, CompileUpdate;
      if o.Value? {
        LowersUpdateFields(w, p, n, env, regs, o.trace, fields[1..]);
        var os := Mir.EvalUpdateFields(w, p, n, env, o.trace, fields[1..]);
        if os.Value? {
          var vs := [o.value] + os.value;
          assert vs[0] == o.value && vs[1..] == os.value;
          assert LowerValues(vs) == [LowerValue(o.value)] + LowerValues(os.value);
        }
      }
    }
  }

  lemma {:induction false} LowersUpdateField(w: World, p: Mir.Program, n: nat, env: Mir.Environment, regs: seq<Value>,
                      trace: Trace,
                          field: Mir.UpdateField)
    requires Mir.EvalUpdateField(w, p, n, env, trace, field) != Stuck
    ensures EvalUpdateField(w, CompileProgram(p), n, LowerEnvironment(env), regs, trace, CompileUpdate(field))
         == LowerResult(Mir.EvalUpdateField(w, p, n, env, trace, field))
    decreases 2 * n + 1, field, 0
  {
    hide Eval, Mir.Eval;
    match field
    case UpdateField(_, expression) => Lowers(w, p, n, env, regs, trace, expression);
  }

  lemma {:induction false} LowersUpdate(w: World, p: Mir.Program, n: nat, env: Mir.Environment, regs: seq<Value>,
                      trace: Trace, e: Mir.Expression)
    requires e.RecordUpdate? && Mir.Eval(w, p, n, env, trace, e) != Stuck
    ensures Lowered(w, p, n, env, regs, trace, e) == LowerResult(Mir.Eval(w, p, n, env, trace, e))
    decreases 2 * n + 1, e, 0
  {
    hide LowerEnvironment;
    Lowers(w, p, n, env, regs, trace, e.argument);
    var o := Mir.Eval(w, p, n, env, trace, e.argument);
    if o.Value? {
      LowersUpdateFields(w, p, n, env, regs, o.trace, e.fields);
      var os := Mir.EvalUpdateFields(w, p, n, env, o.trace, e.fields);
      if os.Value? {
        CompiledIndices(e.fields);
        StoreLowers(o.value.fields, Mir.Indices(e.fields), os.value);
      }
    }
  }

  lemma CompiledIndices(fields: seq<Mir.UpdateField>)
    ensures Indices(CompileUpdates(fields)) == Mir.Indices(fields)
  {
    hide CompileUpdates;
  }

  lemma {:induction false} LowersNumeric(w: World, p: Mir.Program, n: nat, env: Mir.Environment, regs: seq<Value>,
                      trace: Trace, e: Mir.Expression)
    requires e.Numeric? && Mir.Eval(w, p, n, env, trace, e) != Stuck
    ensures Lowered(w, p, n, env, regs, trace, e) == LowerResult(Mir.Eval(w, p, n, env, trace, e))
    decreases 2 * n + 1, e, 0
  {
    hide LowerEnvironment;
    Lowers(w, p, n, env, regs, trace, e.left);
    var o := Mir.Eval(w, p, n, env, trace, e.left);
    if o.Value? {
      Lowers(w, p, n, env, regs, o.trace, e.right);
    }
  }

  lemma LowersConstant(w: World, p: Mir.Program, n: nat, env: Mir.Environment, regs: seq<Value>, trace: Trace, e: Mir.Expression)
    requires e.Constant?
    ensures Lowered(w, p, n, env, regs, trace, e) == LowerResult(Mir.Eval(w, p, n, env, trace, e))
  {
  }

  /**
   Compiled code does what the expression does, whatever the registers hold: it has the same effects,
   the same early returns and the same result, unless the expression gets stuck.
   */
  lemma {:induction false} Lowers(w: World, p: Mir.Program, n: nat, env: Mir.Environment, regs: seq<Value>,
                      trace: Trace, e: Mir.Expression)
    requires Mir.Eval(w, p, n, env, trace, e) != Stuck
    ensures Lowered(w, p, n, env, regs, trace, e) == LowerResult(Mir.Eval(w, p, n, env, trace, e))
    decreases 2 * n + 1, e, 1
  {
    hide Eval, Mir.Eval, Compile, LowerEnvironment, LowerResult, Lowered;
    match e
    case Constant(_) => LowersConstant(w, p, n, env, regs, trace, e);
    case Variable(_) => LowersVariable(w, p, n, env, regs, trace, e);
    case If(_, _, _) => LowersIf(w, p, n, env, regs, trace, e);
    case Let(_, _, _) => LowersLet(w, p, n, env, regs, trace, e);
    case LetRecursive(_, _, _, _) => LowersClosure(w, p, n, env, regs, trace, e);
    case Call(_, _) => LowersCall(w, p, n, env, regs, trace, e);
    case Case(_, _, _) => LowersCase(w, p, n, env, regs, trace, e);
    case TryOperation(_, _, _, _) => LowersTry(w, p, n, env, regs, trace, e);
    case Variant(_, _) => LowersVariant(w, p, n, env, regs, trace, e);
    case Record(_, _) => LowersRecord(w, p, n, env, regs, trace, e);
    case RecordField(_, _, _) => LowersField(w, p, n, env, regs, trace, e);
    case RecordUpdate(_, _, _) => LowersUpdate(w, p, n, env, regs, trace, e);
    case Numeric(_, _, _) => LowersNumeric(w, p, n, env, regs, trace, e);
  }
}
