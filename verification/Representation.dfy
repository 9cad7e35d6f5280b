/** How the values of the high-level representation are represented at the mid level. */
module Representation {
  import opened Sums
  import opened Semantics
  import opened Hir
  import opened HirTypes
  import opened Lowering
  import Mir

  function TypesOf(env: Environment): (r: Context)
    ensures |r| == |env|
  {
    seq(|env|, i requires 0 <= i < |env| => Argument(env[i].name, Annotated(env[i].annotation)))
  }

  /** A value is represented at a static type: as a variant, or without tag. */
  ghost predicate Represents(p: Program, t: Type, v: Value, m: Mir.Value)
    decreases v, 1
  {
    if IsVariant(t) then
      && Accepts(t, TypeOf(v)) && m.Tagged? && m.tag == Concrete(TypeOf(v))
      && if IsGeneric(TypeOf(v)) then
           m.payload.Structure? && m.payload.record == ConcreteRecord(TypeOf(v)) && |m.payload.fields| == 1
           && RepresentsBare(p, v, m.payload.fields[0])
         else RepresentsBare(p, v, m.payload)
    else TypeOf(v) == t && RepresentsBare(p, v, m)
  }

  /** The representation of a value without tag. */
  ghost predicate RepresentsBare(p: Program, v: Value, m: Mir.Value)
    decreases v, 0
  {
    match v
    case Plain(base) => m == Mir.Plain(base)
    case Record(name, fields) =>
      && m.Structure? && m.record == Mir.Declared(name) && |m.fields| == |fields|
      && FindRecord(p.records, name).Some? && |FindRecord(p.records, name).value| == |fields|
      && forall i :: 0 <= i < |fields| ==> Represents(p, FindRecord(p.records, name).value[i].type_, fields[i], m.fields[i])
    case Closure(arguments, result, body, env) =>
      && m.Closure? && !IsUserName(m.self) && m.arguments == ArgumentNames(arguments) && m.body == Compile(p, body)
      && UserNames(arguments) && Infer(p, BindTypes(TypesOf(env), arguments), Some(result), body) == Some(result)
      && MirrorsAll(p, env, m.environment) && NothingElse(env, m.environment)
    case Foreign(name, types, result) => m == Mir.Foreign(name, |types|, result) && IsForeign(types, result)
    case Collection(type_, contents) => (type_.ListType? || type_.MapType?) && m == Mir.Collection(contents)
  }

  predicate IsVisible(env: Environment, b: Binding) {
    Lookup(env, b.name) == Some(b)
  }

  ghost predicate MirrorsAll(p: Program, env: Environment, menv: Mir.Environment)
    decreases env
  {
    forall i :: 0 <= i < |env| && IsVisible(env, env[i]) ==> MirrorsBinding(p, env[i], menv)
  }

  ghost predicate MirrorsBinding(p: Program, b: Binding, menv: Mir.Environment)
    decreases b
  {
    match b
    case Binding(name, annotation, value) =>
      && IsUserName(name) && annotation.Some? && Mir.Lookup(menv, name).Some?
      && Represents(p, annotation.value, value, Mir.Lookup(menv, name).value)
  }

  /** Apart from generated names, nothing else is bound. */
  ghost predicate NothingElse(env: Environment, menv: Mir.Environment) {
    forall name :: IsUserName(name) && Mir.Lookup(menv, name).Some? ==> Lookup(env, name).Some?
  }

  /** The variables of users are represented; variables of generated names may be added freely. */
  ghost predicate Mirrors(p: Program, env: Environment, menv: Mir.Environment) {
    MirrorsAll(p, env, menv) && NothingElse(env, menv)
  }

  // ----- Environments -----

  lemma {:induction false} LookupFinds(env: Environment, name: string)
    requires Lookup(env, name).Some?
    ensures exists i :: 0 <= i < |env| && env[i] == Lookup(env, name).value && env[i].name == name
  {
    if env[0].name != name {
      LookupFinds(env[1..], name);
      var i :| 0 <= i < |env[1..]| && env[1..][i] == Lookup(env[1..], name).value && env[1..][i].name == name;
      assert env[i + 1] == env[1..][i];
    } else {
      assert env[0] == Lookup(env, name).value;
    }
  }

  lemma LookupMirrored(p: Program, env: Environment, menv: Mir.Environment, name: string)
    requires Mirrors(p, env, menv) && Lookup(env, name).Some?
    ensures var b := Lookup(env, name).value;
            && b.name == name && b.annotation.Some? && Mir.Lookup(menv, name).Some?
            && Represents(p, b.annotation.value, b.value, Mir.Lookup(menv, name).value)
  {
    LookupFinds(env, name);
    var i :| 0 <= i < |env| && env[i] == Lookup(env, name).value && env[i].name == name;
    assert IsVisible(env, env[i]);
    assert MirrorsBinding(p, env[i], menv);
  }

  lemma {:induction false} LookupTypes(env: Environment, name: string)
    ensures LookupType(TypesOf(env), name).Some? <==> Lookup(env, name).Some?
    ensures Lookup(env, name).Some? ==> LookupType(TypesOf(env), name) == Some(Annotated(Lookup(env, name).value.annotation))
  {
    if env != [] {
      assert TypesOf(env)[1..] == TypesOf(env[1..]);
      LookupTypes(env[1..], name);
    }
  }

  lemma TypesOfCons(b: Binding, env: Environment)
    ensures TypesOf([b] + env) == [Argument(b.name, Annotated(b.annotation))] + TypesOf(env)
  {
  }

  /** A binding of a user's name is mirrored by a binding of the same name. */
  lemma BindMirrors(p: Program, env: Environment, menv: Mir.Environment, name: string, t: Type, v: Value, m: Mir.Value)
    requires Mirrors(p, env, menv) && IsUserName(name) && Represents(p, t, v, m)
    ensures Mirrors(p, [Binding(name, Some(t), v)] + env, [Mir.Binding(name, m)] + menv)
  {
    var b := Binding(name, Some(t), v);
    var env', menv' := [b] + env, [Mir.Binding(name, m)] + menv;
    assert env'[1..] == env && menv'[1..] == menv;
    forall i | 0 <= i < |env'| && IsVisible(env', env'[i]) ensures MirrorsBinding(p, env'[i], menv') {
      if env'[i].name == name {
        assert env'[i] == b;
      } else {
        assert env'[i] == env[i - 1] && IsVisible(env, env[i - 1]);
        assert MirrorsBinding(p, env[i - 1], menv);
      }
    }
    forall x | IsUserName(x) && Mir.Lookup(menv', x).Some? ensures Lookup(env', x).Some? {
      if x != name {
        assert Mir.Lookup(menv, x).Some?;
      }
    }
  }

  /** Bindings of generated names change nothing. */
  lemma GeneratedMirrors(p: Program, env: Environment, menv: Mir.Environment, name: string, m: Mir.Value)
    requires Mirrors(p, env, menv) && !IsUserName(name)
    ensures Mirrors(p, env, [Mir.Binding(name, m)] + menv)
  {
    var menv' := [Mir.Binding(name, m)] + menv;
    assert menv'[1..] == menv;
    forall i | 0 <= i < |env| && IsVisible(env, env[i]) ensures MirrorsBinding(p, env[i], menv') {
      assert MirrorsBinding(p, env[i], menv);
    }
  }

  /** A binding that is shadowed at once changes nothing. */
  lemma ShadowMirrors(p: Program, env: Environment, menv: Mir.Environment, name: string, m: Mir.Value, hidden: Mir.Value)
    requires Mirrors(p, env, [Mir.Binding(name, m)] + menv)
    ensures Mirrors(p, env, [Mir.Binding(name, m)] + ([Mir.Binding(name, hidden)] + menv))
  {
    var menv0, menv1 := [Mir.Binding(name, m)] + menv, [Mir.Binding(name, m)] + ([Mir.Binding(name, hidden)] + menv);
    forall x ensures Mir.Lookup(menv1, x) == Mir.Lookup(menv0, x) {
      assert menv0[1..] == menv && menv1[1..] == [Mir.Binding(name, hidden)] + menv;
      assert ([Mir.Binding(name, hidden)] + menv)[1..] == menv;
    }
    forall i | 0 <= i < |env| && IsVisible(env, env[i]) ensures MirrorsBinding(p, env[i], menv1) {
      assert MirrorsBinding(p, env[i], menv0);
    }
  }

  /** Arguments are represented at their types. */
  ghost predicate RepresentsAll(p: Program, ts: seq<Type>, vs: seq<Value>, ms: seq<Mir.Value>) {
    |ts| == |vs| == |ms| && forall i :: 0 <= i < |vs| ==> Represents(p, ts[i], vs[i], ms[i])
  }

  lemma {:induction false} BindAllMirrors(p: Program, env: Environment, menv: Mir.Environment,
                                           arguments: seq<Argument>, vs: seq<Value>, ms: seq<Mir.Value>)
    requires Mirrors(p, env, menv) && UserNames(arguments) && RepresentsAll(p, ArgumentTypes(arguments), vs, ms)
    ensures Mirrors(p, BindAll(env, arguments, vs), Mir.BindAll(menv, ArgumentNames(arguments), ms))
    ensures TypesOf(BindAll(env, arguments, vs)) == BindTypes(TypesOf(env), arguments)
    decreases |arguments|
  {
    if arguments != [] {
      var a := arguments[0];
      assert Represents(p, a.type_, vs[0], ms[0]);
      hide Represents, RepresentsBare;
      BindMirrors(p, env, menv, a.name, a.type_, vs[0], ms[0]);
      TypesOfCons(Binding(a.name, Some(a.type_), vs[0]), env);
      assert ArgumentNames(arguments)[1..] == ArgumentNames(arguments[1..]);
      forall i | 0 <= i < |arguments[1..]|
        ensures Represents(p, ArgumentTypes(arguments[1..])[i], vs[1..][i], ms[1..][i])
      {
        assert Represents(p, ArgumentTypes(arguments)[i + 1], vs[i + 1], ms[i + 1]);
      }
      BindAllMirrors(p, [Binding(a.name, Some(a.type_), vs[0])] + env, [Mir.Binding(a.name, ms[0])] + menv,
                     arguments[1..], vs[1..], ms[1..]);
    }
  }

  // ----- Outcomes -----

  /** Outcomes agree: the same effects, represented results, and no stuck evaluation. */
  ghost predicate Agree(p: Program, t: Type, ret: Option<Type>, h: Result, m: Mir.Result) {
    match h
    case Value(v, trace) => m.Value? && m.trace == trace && Represents(p, t, v, m.value)
    case Return(v, trace) => m.Return? && m.trace == trace && ret.Some? && Represents(p, ret.value, v, m.returned)
    case Timeout => m.Timeout?
    case Stuck => false
  }

  ghost predicate AgreeAll(p: Program, ts: seq<Type>, ret: Option<Type>, h: Results, m: Mir.Results) {
    match h
    case Value(vs, trace) => m.Value? && m.trace == trace && RepresentsAll(p, ts, vs, m.value)
    case Return(v, trace) => m.Return? && m.trace == trace && ret.Some? && Represents(p, ret.value, v, m.returned)
    case Timeout => m.Timeout?
    case Stuck => false
  }
}
