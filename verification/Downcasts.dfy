/** Checked narrowing of variants, expressed as type tests on generated names. */
module Downcasts {
  import opened Sums
  import opened Semantics
  import opened Hir
  import opened HirTypes
  import opened Lowering
  import opened Representation
  import opened LoweringTheorems
  import opened Simulation
  import Mir

  const VALUE_NAME: string := "$value"

  /** Nothing when values cannot be narrowed. */
  function Downcast(from: Type, to: Type, e: Expression): Option<Expression> {
    if !IsVariant(from) || !Subsumes(from, to) then None
    else if from == to then Some(e)
    else Some(IfType(VALUE_NAME, e, [Branch(Some(to), Variable(VALUE_NAME))], None))
  }

  /** A downcast succeeds exactly on values of its type, leaves them as they are, and has no effects of its own. */
  lemma DowncastNarrows(w: World, p: Program, n: nat, env: Environment, trace: Trace, from: Type, to: Type, e: Expression)
    requires Downcast(from, to, e).Some?
    ensures var o := Eval(w, p, n, env, trace, e);
            Eval(w, p, n, env, trace, Downcast(from, to, e).value) ==
            if o.Value? && from != to && !Accepts(to, TypeOf(o.value)) then Stuck else o
  {
    if from != to {
      var d := Downcast(from, to, e).value;
      var o := Eval(w, p, n, env, trace, e);
      EvalsIfType(w, p, n, env, trace, d);
      if o.Value? && Accepts(to, TypeOf(o.value)) {
        var env' := [Binding(VALUE_NAME, Some(to), o.value)] + env;
        assert Eval(w, p, n, env', o.trace, Variable(VALUE_NAME)) == Value(o.value, o.trace);
      }
    }
  }

  /** Coercing a value and narrowing it again changes nothing. */
  lemma DowncastUndoesCoercion(w: World, p: Program, n: nat, env: Environment, trace: Trace, from: Type, to: Type, e: Expression)
    requires Downcast(from, to, Coerce(to, from, e)).Some?
    requires var o := Eval(w, p, n, env, trace, e); o.Value? ==> Accepts(to, TypeOf(o.value))
    ensures Eval(w, p, n, env, trace, Downcast(from, to, Coerce(to, from, e)).value) == Eval(w, p, n, env, trace, e)
  {
    DowncastNarrows(w, p, n, env, trace, from, to, Coerce(to, from, e));
  }

  /**
   The compiled downcast of a represented value is a representation at the narrower type, unwrapped
   or still a variant as that type demands; it is stuck exactly when the downcast is.
   */
  lemma DowncastRepresents(w: World, p: Program, n: nat, env: Environment, menv: Mir.Environment, trace: Trace, ret: Option<Type>,
                           from: Type, to: Type, e: Expression)
    requires Downcast(from, to, e).Some? && (from != to ==> IsTestable(to))
    requires Agree(p, from, ret, Eval(w, p, n, env, trace, e), Lowered(w, p, n, menv, trace, e))
    ensures var d := Downcast(from, to, e).value;
            var o, o' := Eval(w, p, n, env, trace, d), Lowered(w, p, n, menv, trace, d);
            if o.Stuck? then o'.Stuck? else Agree(p, to, ret, o, o')
  {
    hide Represents, RepresentsBare, Eval, Mir.Eval, Compile, CompileProgram, Accepts;
    DowncastNarrows(w, p, n, env, trace, from, to, e);
    var o, o' := Eval(w, p, n, env, trace, e), Lowered(w, p, n, menv, trace, e);
    if o.Value? {
      CompiledNarrows(w, p, n, menv, trace, from, to, e, o.value, o'.value, o.trace);
    } else if from != to {
      EvalsCase(w, p, n, menv, trace, Downcast(from, to, e).value);
    }
  }

  lemma CompiledNarrows(w: World, p: Program, n: nat, menv: Mir.Environment, trace: Trace, from: Type, to: Type, e: Expression,
                        v: Value, m: Mir.Value, end: Trace)
    requires Downcast(from, to, e).Some? && (from != to ==> IsTestable(to))
    requires Lowered(w, p, n, menv, trace, e) == Semantics.Outcome.Value(m, end) && Represents(p, from, v, m)
    ensures var o := Lowered(w, p, n, menv, trace, Downcast(from, to, e).value);
            if from == to || Accepts(to, TypeOf(v)) then o.Value? && o.trace == end && Represents(p, to, v, o.value)
            else o.Stuck?
  {
    hide Represents, RepresentsBare, Mir.Eval, Compile, CompileProgram, Accepts, CompileAlternative;
    if from != to {
      EvalsCase(w, p, n, menv, trace, Downcast(from, to, e).value);
      TypeIsConcrete(p, from, v, m);
      TaggedForm(p, from, v, m);
      SelectsOne(p, to, TypeOf(v));
      if Accepts(to, TypeOf(v)) {
        NarrowedRepresents(p, to, from, v, m);
        EvalsAlternative(w, CompileProgram(p), n, menv, end, VALUE_NAME, to, Compile(p, Variable(VALUE_NAME)), m);
        ReadsVariable(w, p, n, AlternativeEnvironment(menv, VALUE_NAME, to, m), end, VALUE_NAME);
      }
    }
  }

  lemma TaggedForm(p: Program, t: Type, v: Value, m: Mir.Value)
    requires Represents(p, t, v, m) && IsVariant(t)
    ensures m.Tagged? && m.tag == Concrete(TypeOf(v))
  {
  }

  /** The only alternative of a downcast. */
  lemma SelectsOne(p: Program, to: Type, c: Type)
    requires IsTestable(to) && IsConcrete(c)
    ensures var branch := Branch(Some(to), Variable(VALUE_NAME));
            var all := CompileBranches(p, VALUE_NAME, [branch]) + CompileElse(p, VALUE_NAME, None);
            && |all| == 1 && all[0] == CompileAlternative(VALUE_NAME, to, Compile(p, Variable(VALUE_NAME)))
            && Mir.SelectAlternative(all, Concrete(c)) == if Accepts(to, c) then 0 else 1
  {
    var branch := Branch(Some(to), Variable(VALUE_NAME));
    SelectionAgrees(p, VALUE_NAME, [branch], [], c);
    CompiledBranches(p, VALUE_NAME, [branch]);
    assert SelectBranch([branch], c) == if Accepts(to, c) then 0 else 1;
  }

  lemma ReadsVariable(w: World, p: Program, n: nat, menv: Mir.Environment, trace: Trace, name: string)
    requires Mir.Lookup(menv, name).Some?
    ensures Mir.Eval(w, CompileProgram(p), n, menv, trace, Compile(p, Variable(name))) == Value(Mir.Lookup(menv, name).value, trace)
  {
  }
}
