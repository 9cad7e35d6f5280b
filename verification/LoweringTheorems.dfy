/** Lowering preserves meaning: results, effects, early returns and even the number of nested calls. */
module LoweringTheorems {
  import opened Sums
  import opened Semantics
  import opened Hir
  import opened HirTypes
  import opened Lowering
  import opened Representation
  import Mir

  // ----- Forms of values -----

  /** Values without structure are represented as they are. */
  lemma BaseForm(p: Program, t: Type, v: Value, m: Mir.Value)
    requires IsBaseType(t) && Represents(p, t, v, m)
    ensures v.Plain? && BaseType(v.base) == t && m == Mir.Plain(v.base)
  {
  }

  lemma PlainRepresents(p: Program, base: Base)
    ensures Represents(p, BaseType(base), Plain(base), Mir.Plain(base))
  {
  }

  lemma TypeIsConcrete(p: Program, t: Type, v: Value, m: Mir.Value)
    requires Represents(p, t, v, m)
    ensures IsConcrete(TypeOf(v)) && Accepts(t, TypeOf(v))
  {
    BareIsConcrete(p, v, if !IsVariant(t) then m else if IsGeneric(TypeOf(v)) then m.payload.fields[0] else m.payload);
  }

  lemma BareIsConcrete(p: Program, v: Value, m: Mir.Value)
    requires RepresentsBare(p, v, m)
    ensures IsConcrete(TypeOf(v))
  {
  }

  /** Coercions between variants leave values as they are. */
  lemma Widen(p: Program, from: Type, to: Type, v: Value, m: Mir.Value)
    requires Represents(p, from, v, m) && IsVariant(from) && IsVariant(to) && Accepts(to, TypeOf(v))
    ensures Represents(p, to, v, m)
  {
  }

  /** Tagging a value makes it a variant. */
  lemma TagRepresents(p: Program, from: Type, to: Type, v: Value, m: Mir.Value)
    requires Represents(p, from, v, m) && IsConcrete(from) && IsVariant(to) && Accepts(to, from)
    ensures Represents(
              p, to, v,
              Mir.Tagged(Concrete(from), if IsGeneric(from) then Mir.Structure(ConcreteRecord(from), [m]) else m))
  {
  }

  lemma EvalTagged(w: World, q: Mir.Program, n: nat, menv: Mir.Environment, trace: Trace, t: Type, e: Mir.Expression)
    ensures Mir.Eval(w, q, n, menv, trace, Tag(t, e)) ==
            match Mir.Eval(w, q, n, menv, trace, e)
            case Value(m, trace) =>
              Value(Mir.Tagged(Concrete(t), if IsGeneric(t) then Mir.Structure(ConcreteRecord(t), [m]) else m), trace)
            case o => o
  {
    if IsGeneric(t) {
      var record := Mir.Record(ConcreteRecord(t), [e]);
      EvalOne(w, q, n, menv, trace, e);
      var one := Mir.EvalAll(w, q, n, menv, trace, [e]);
      assert Mir.Eval(w, q, n, menv, trace, record) ==
             match one
             case Value(values, trace) => Value(Mir.Structure(ConcreteRecord(t), values), trace)
             case o => Fail(o);
    }
  }

  lemma EvalOne(w: World, q: Mir.Program, n: nat, menv: Mir.Environment, trace: Trace, e: Mir.Expression)
    ensures Mir.EvalAll(w, q, n, menv, trace, [e]) ==
            match Mir.Eval(w, q, n, menv, trace, e)
            case Value(m, trace) => Value([m], trace)
            case o => Fail(o)
  {
    assert [e][1..] == [];
    match Mir.Eval(w, q, n, menv, trace, e)
    case Value(m, trace') =>
      assert Mir.EvalAll(w, q, n, menv, trace', []) == Value([], trace');
      assert [m] + [] == [m];
    case _ =>
  }

  // ----- Functions -----

  lemma {:induction false} FindCompiled(p: Program, ds: seq<Definition>, name: string)
    ensures Mir.FindDefinition(CompileDefinitions(p, ds), name) ==
            match FindDefinition(ds, name)
            case None => None
            case Some(d) => Some(CompileDefinition(p, d))
    ensures FindDefinition(ds, name).Some? ==> FindDefinition(ds, name).value in ds
  {
    hide Compile;
    if ds != [] {
      FindCompiled(p, ds[1..], name);
      assert CompileDefinitions(p, ds)[1..] == CompileDefinitions(p, ds[1..]);
    }
  }

  lemma {:induction false} FindForeignCompiled(ds: seq<ForeignDeclaration>, name: string)
    ensures Mir.FindForeign(CompileForeigns(ds), name) ==
            match FindForeign(ds, name)
            case None => None
            case Some(d) => Some(Mir.ForeignDeclaration(d.name, d.foreignName, |d.types|, d.result))
  {
    if ds != [] {
      FindForeignCompiled(ds[1..], name);
      assert CompileForeigns(ds)[1..] == CompileForeigns(ds[1..]);
    }
  }

  lemma ForeignRepresents(p: Program, d: ForeignDeclaration)
    requires IsForeign(d.types, d.result)
    ensures Represents(p, FunctionType(d.types, d.result), Foreign(d.foreignName, d.types, d.result),
                       Mir.Foreign(d.foreignName, |d.types|, d.result))
  {
  }

  lemma FunctionRepresents(p: Program, d: Definition)
    requires WellTypedDefinition(p, d)
    ensures Represents(p, FunctionType(ArgumentTypes(d.arguments), d.result), Closure(d.arguments, d.result, d.body, []),
                       Mir.Closure("", ArgumentNames(d.arguments), Compile(p, d.body), []))
  {
    hide Compile, Infer;
    var env: Environment, menv: Mir.Environment := [], [];
    assert TypesOf(env) == [];
    assert MirrorsAll(p, env, menv) && NothingElse(env, menv);
    assert RepresentsBare(p, Closure(d.arguments, d.result, d.body, env), Mir.Closure("", ArgumentNames(d.arguments), Compile(p, d.body), menv));
  }

  // ----- Alternatives -----

  /** An alternative is for the tags of the values that its type accepts. */
  lemma AlternativeAccepts(name: string, t: Type, body: Mir.Expression, c: Type)
    requires IsTestable(t) && IsConcrete(c)
    ensures Concrete(c) in CompileAlternative(name, t, body).types <==> Accepts(t, c)
  {
    var types := CompileAlternative(name, t, body).types;
    if IsGeneric(t) {
      assert types == [Concrete(t)];
      if Concrete(c) == Concrete(t) {
        TagsAreUnique(c, t);
      }
    } else {
      if Concrete(c) in types {
        var i :| 0 <= i < |types| && types[i] == Concrete(c);
        TagsAreUnique(c, Members(t)[i]);
      }
      if c in Members(t) {
        var i :| 0 <= i < |Members(t)| && Members(t)[i] == c;
        assert types[i] == Concrete(c);
      }
    }
  }

  predicate AllTestable(branches: seq<Branch>) {
    forall i :: 0 <= i < |branches| ==> branches[i].annotation.Some? && IsTestable(branches[i].annotation.value)
  }

  lemma {:induction false} SelectionAgrees(p: Program, name: string, branches: seq<Branch>, rest: seq<Mir.Alternative>, c: Type)
    requires AllTestable(branches) && IsConcrete(c)
    ensures var i := SelectBranch(branches, c);
            Mir.SelectAlternative(CompileBranches(p, name, branches) + rest, Concrete(c)) ==
            if i < |branches| then i else i + Mir.SelectAlternative(rest, Concrete(c))
    decreases |branches|
  {
    hide Compile;
    var all := CompileBranches(p, name, branches) + rest;
    if branches == [] {
      assert all == rest;
    } else {
      var b := branches[0];
      assert all[0] == CompileBranch(p, name, b);
      assert all[0] == CompileAlternative(name, b.annotation.value, Compile(p, b.body));
      AlternativeAccepts(name, b.annotation.value, Compile(p, b.body), c);
      hide CompileAlternative, CompileBranch;
      SelectionAgrees(p, name, branches[1..], rest, c);
      assert all[1..] == CompileBranches(p, name, branches[1..]) + rest;
    }
  }

  /** What an alternative's name is bound to, once a wrapped value has been unwrapped. */
  function Narrowed(t: Type, m: Mir.Value): Mir.Value
    requires m.Tagged?
    requires IsGeneric(t) ==> m.payload.Structure? && |m.payload.fields| == 1
  {
    if IsGeneric(t) then m.payload.fields[0] else if IsConcrete(t) then m.payload else m
  }

  /** A variant, narrowed to a type that accepts its value, represents the value at that type. */
  lemma NarrowedRepresents(p: Program, t: Type, s: Type, v: Value, m: Mir.Value)
    requires IsTestable(t) && Represents(p, s, v, m) && IsVariant(s) && Accepts(t, TypeOf(v))
    ensures m.Tagged?
    ensures IsGeneric(t) ==> m.payload.Structure? && |m.payload.fields| == 1 && m.payload.record == ConcreteRecord(t)
    ensures Represents(p, t, v, Narrowed(t, m))
  {
    TypeIsConcrete(p, s, v, m);
  }

  /** The environment in which the body of an alternative is evaluated. */
  function AlternativeEnvironment(menv: Mir.Environment, name: string, t: Type, m: Mir.Value): Mir.Environment
    requires m.Tagged?
    requires IsGeneric(t) ==> m.payload.Structure? && |m.payload.fields| == 1
  {
    [Mir.Binding(name, Narrowed(t, m))] + if IsGeneric(t) then [Mir.Binding(name, m.payload)] + menv else menv
  }

  lemma EvalsAlternative(w: World, q: Mir.Program, n: nat, menv: Mir.Environment, trace: Trace,
                         name: string, t: Type, body: Mir.Expression, m: Mir.Value)
    requires IsTestable(t) && m.Tagged?
    requires IsGeneric(t) ==> m.payload.Structure? && |m.payload.fields| == 1 && m.payload.record == ConcreteRecord(t)
    ensures Mir.EvalAlternative(w, q, n, menv, trace, m, CompileAlternative(name, t, body)) ==
            Mir.Eval(w, q, n, AlternativeEnvironment(menv, name, t, m), trace, body)
  {
    if IsGeneric(t) {
      var menv0 := [Mir.Binding(name, m.payload)] + menv;
      EvalUnwrap(w, q, n, menv0, trace, name, ConcreteRecord(t), m.payload);
    }
  }

  /** An alternative binds a represented value and evaluates its body. */
  lemma AlternativeBinds(w: World, p: Program, n: nat, env: Environment, menv: Mir.Environment, trace: Trace,
                         name: string, t: Type, body: Mir.Expression, s: Type, v: Value, m: Mir.Value)
    returns (menv': Mir.Environment)
    requires Mirrors(p, env, menv) && IsTestable(t)
    requires Represents(p, s, v, m) && IsVariant(s) && Accepts(t, TypeOf(v))
    ensures IsGeneric(t) ==> m.payload.Structure? && |m.payload.fields| == 1
    ensures Represents(p, t, v, Narrowed(t, m))
    ensures Mir.EvalAlternative(w, CompileProgram(p), n, menv, trace, m, CompileAlternative(name, t, body)) ==
            Mir.Eval(w, CompileProgram(p), n, menv', trace, body)
    ensures IsUserName(name) ==> Mirrors(p, [Binding(name, Some(t), v)] + env, menv')
    ensures Mir.Lookup(menv', name) == Some(Narrowed(t, m))
  {
    hide Mir.Eval, Mir.EvalAlternative, CompileAlternative, Represents, RepresentsBare, Mirrors, Compile, CompileProgram, Accepts;
    NarrowedRepresents(p, t, s, v, m);
    EvalsAlternative(w, CompileProgram(p), n, menv, trace, name, t, body, m);
    var m' := Narrowed(t, m);
    menv' := AlternativeEnvironment(menv, name, t, m);
    if IsUserName(name) {
      BindMirrors(p, env, menv, name, t, v, m');
      if IsGeneric(t) {
        ShadowMirrors(p, [Binding(name, Some(t), v)] + env, menv, name, m', m.payload);
      }
    }
  }

  lemma EvalUnwrap(w: World, q: Mir.Program, n: nat, menv: Mir.Environment, trace: Trace, name: string,
                   record: Mir.RecordName, m: Mir.Value)
    requires menv != [] && menv[0] == Mir.Binding(name, m) && m.Structure? && m.record == record && |m.fields| == 1
    ensures Mir.Eval(w, q, n, menv, trace, Mir.RecordField(record, 0, Mir.Variable(name))) == Value(m.fields[0], trace)
  {
    assert Mir.Eval(w, q, n, menv, trace, Mir.Variable(name)) == Value(m, trace);
  }
}
