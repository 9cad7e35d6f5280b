/**
 Spawned functions.  `go` wraps a function in a synchronized thunk of the any type, hands it to the
 runtime, and returns a function that narrows the thunk's result to the original type.
 */
module Spawn {
  import opened Sums
  import opened Semantics
  import opened Thunk
  import opened ThunkTheorems
  import opened ThunkInvariant
  import Downcasts
  import Hir
  import HirTypes
  import Lowering
  import LoweringTheorems
  import Mir
  import Representation
  import Simulation

  // ----- Results come from bodies -----

  /** The value that a thread carries between the steps of a call. */
  function Carried(pc: Pc): Option<Value> {
    match pc
    case Loaded(Computed(v)) => Some(v)
    case Cloned(v) => Some(v)
    case Releasing(_, v) => Some(v)
    case Storing(v) => Some(v)
    case Switching(v) => Some(v)
    case Publishing(v) => Some(v)
    case Finishing(v) => Some(v)
    case Reclaiming(r) => r
    case _ => None
  }

  predicate CarriesOnly(th: Thread, known: set<Value>) {
    && (Carried(th.pc).Some? ==> Carried(th.pc).value in known)
    && forall i :: 0 <= i < |th.log| ==> th.log[i] in known
  }

  /** All values in a state are from a set. */
  predicate KnowsOnly(s: State, known: set<Value>) {
    && (forall t :: 0 <= t < |s.threads| ==> CarriesOnly(s.threads[t], known))
    && forall k :: 0 <= k < |s.payloads| ==> s.payloads[k].Computed? ==> s.payloads[k].value in known
  }

  /** The values that bodies have returned. */
  function Returned(actions: seq<Action>): set<Value> {
    if actions == [] then {}
    else
      var last := actions[|actions| - 1];
      Returned(actions[..|actions| - 1]) + if last.BodyReturns? then {last.v} else {}
  }

  lemma MovedKnows(s: State, a: Action, known: set<Value>)
    requires Enabled(s, a) && KnowsOnly(s, known)
    ensures CarriesOnly(Moved(s, a), known + if a.BodyReturns? then {a.v} else {})
  {
    hide Memory, LastView;
    assert CarriesOnly(s.threads[a.t], known);
  }

  lemma MemoryKnows(s: State, a: Action, known: set<Value>)
    requires Enabled(s, a) && KnowsOnly(s, known)
    ensures forall k :: 0 <= k < |Memory(s, a).payloads| ==>
              Memory(s, a).payloads[k].Computed? ==> Memory(s, a).payloads[k].value in known
  {
    hide Moved, Fails;
    assert CarriesOnly(s.threads[a.t], known);
  }

  lemma StepKnows(s: State, a: Action, known: set<Value>)
    requires Enabled(s, a) && KnowsOnly(s, known)
    ensures KnowsOnly(Apply(s, a), known + if a.BodyReturns? then {a.v} else {})
  {
    MovedKnows(s, a, known);
    MemoryKnows(s, a, known);
    StepThreads(s, a);
    hide Moved, Memory, Apply, Enabled;
    var known' := known + if a.BodyReturns? then {a.v} else {};
    var s' := Apply(s, a);
    forall t | 0 <= t < |s'.threads| ensures CarriesOnly(s'.threads[t], known') {
      assert CarriesOnly(s.threads[t], known);
    }
  }

  lemma {:induction false} RunKnows(run: seq<State>, actions: seq<Action>, i: nat)
    requires IsRun(run, actions) && i < |run|
    ensures KnowsOnly(run[i], Returned(actions[..i]))
  {
    if i > 0 {
      RunKnows(run, actions, i - 1);
      StepKnows(run[i - 1], actions[i - 1], Returned(actions[..i - 1]));
      assert actions[..i][..i - 1] == actions[..i - 1];
    }
  }

  /** Nothing comes out of thin air: what a call returns, a body has returned before. */
  lemma ResultsAreReturned(run: seq<State>, actions: seq<Action>, i: nat, t: nat, a: nat)
    requires IsRun(run, actions) && i < |run| && t < |run[i].threads| && a < |run[i].threads[t].log|
    ensures run[i].threads[t].log[a] in Returned(actions[..i])
  {
    RunKnows(run, actions, i);
    assert CarriesOnly(run[i].threads[t], Returned(actions[..i]));
  }

  // ----- The body of the thunk -----

  const ANY_THUNK_NAME: string := "$any_thunk"
  const THUNK_NAME: string := "$thunk"
  const STORED_NAME: string := "$value"

  /** The call of the spawned function, and what the thunk evaluates: the same, coerced to the any type. */
  function SpawnedCall(e: Hir.Expression): Hir.Expression {
    Hir.Call(e, [])
  }

  function ThunkBody(to: Hir.Type, e: Hir.Expression): Hir.Expression {
    Hir.Coerce(to, Hir.AnyType, SpawnedCall(e))
  }

  /** Where the thunk is created, and where its compiled body runs: the thunk knows itself. */
  function ThunkEnvironment(menv: Mir.Environment, self: Mir.Value): Mir.Environment {
    [Mir.Binding(ANY_THUNK_NAME, self)] + menv
  }

  /** A run of the compiled body of the thunk. */
  function BodyRun(w: World, p: Hir.Program, n: nat, menv: Mir.Environment, self: Mir.Value, trace: Trace,
                   to: Hir.Type, e: Hir.Expression): Mir.Result
  {
    EndCall(Simulation.Lowered(w, p, n, ThunkEnvironment(menv, self), trace, ThunkBody(to, e)))
  }

  /** Types of results: any, concrete, or unions of concrete types. */
  predicate IsSpawnable(to: Hir.Type) {
    to.AnyType? || HirTypes.IsTestable(to)
  }

  /** `e` is an expression for a function without arguments. */
  ghost predicate Spawns(p: Hir.Program, env: Hir.Environment, menv: Mir.Environment, ret: Option<Hir.Type>,
                         to: Hir.Type, e: Hir.Expression)
  {
    IsSpawnable(to) && Simulation.Ready(p, env, menv, ret, e, Hir.FunctionType([], to))
  }

  lemma BodyIsTyped(p: Hir.Program, ctx: HirTypes.Context, ret: Option<Hir.Type>, to: Hir.Type, e: Hir.Expression)
    requires HirTypes.Infer(p, ctx, ret, e) == Some(Hir.FunctionType([], to))
    ensures HirTypes.Infer(p, ctx, ret, SpawnedCall(e)) == Some(to)
    ensures HirTypes.Infer(p, ctx, ret, ThunkBody(to, e)) == Some(Hir.AnyType)
  {
    assert HirTypes.InferAll(p, ctx, ret, []) == Some([]);
    assert HirTypes.Infer(p, ctx, ret, SpawnedCall(e)) == Some(to);
    assert HirTypes.CanCoerce(to, Hir.AnyType);
    hide HirTypes.CanCoerce;
  }

  /** What an evaluation results in, early or not. */
  function Final(o: Hir.Result): Hir.Value
    requires o.Value? || o.Return?
  {
    if o.Value? then o.value else o.returned
  }

  /**
   What the thunk stores represents what the call of the spawned function results in, with the same
   effects.  If the argument of `go` does not return early, that is the function's own result.
   */
  lemma BodyRepresents(w: World, p: Hir.Program, n: nat, env: Hir.Environment, menv: Mir.Environment, self: Mir.Value, trace: Trace,
                       ret: Option<Hir.Type>, to: Hir.Type, e: Hir.Expression)
    requires Spawns(p, env, menv, ret, to, e) && BodyRun(w, p, n, menv, self, trace, to, e).Value?
    requires ret.Some? ==> Hir.IsVariant(ret.value)
    ensures var o, r := Hir.Eval(w, p, n, env, trace, SpawnedCall(e)), BodyRun(w, p, n, menv, self, trace, to, e);
            && (o.Value? || o.Return?) && o.trace == r.trace
            && Representation.Represents(p, Hir.AnyType, Final(o), r.value)
            && (o.Value? ==> Hir.Accepts(to, Hir.TypeOf(o.value)))
  {
    hide Hir.Eval, Mir.Eval, Representation.Represents, Representation.Mirrors, HirTypes.Infer, HirTypes.WellTyped, Lowering.Compile;
    var menv' := ThunkEnvironment(menv, self);
    Representation.GeneratedMirrors(p, env, menv, ANY_THUNK_NAME, self);
    BodyIsTyped(p, Representation.TypesOf(env), ret, to, e);
    CoercionEvaluates(w, p, n, env, trace, to, SpawnedCall(e));
    Simulation.Simulates(w, p, n, env, menv', trace, ret, SpawnedCall(e), to);
    Simulation.Simulates(w, p, n, env, menv', trace, ret, ThunkBody(to, e), Hir.AnyType);
    var o := Hir.Eval(w, p, n, env, trace, SpawnedCall(e));
    var lowered := Simulation.Lowered(w, p, n, menv', trace, ThunkBody(to, e));
    if o.Value? {
      LoweringTheorems.TypeIsConcrete(p, to, o.value, Simulation.Lowered(w, p, n, menv', trace, SpawnedCall(e)).value);
    } else if o.Return? {
      LoweringTheorems.Widen(p, ret.value, Hir.AnyType, o.returned, lowered.returned);
    }
  }

  lemma CoercionEvaluates(w: World, p: Hir.Program, n: nat, env: Hir.Environment, trace: Trace, from: Hir.Type, e: Hir.Expression)
    ensures Hir.Eval(w, p, n, env, trace, Hir.Coerce(from, Hir.AnyType, e)) == Hir.Eval(w, p, n, env, trace, e)
  {
  }

  // ----- The function that is returned -----

  /** A thunk that has been evaluated: its normal entry function returns the stored value. */
  function Evaluated(m: Mir.Value): Mir.Value {
    Mir.Closure(ANY_THUNK_NAME, [], Mir.Variable(STORED_NAME), [Mir.Binding(STORED_NAME, m)])
  }

  function ThunkCall(): Hir.Expression {
    Hir.Call(Hir.Variable(ANY_THUNK_NAME), [])
  }

  /** The function that `go` returns. */
  function Narrowing(p: Hir.Program, to: Hir.Type, menv: Mir.Environment, thunk: Mir.Value): Mir.Value
    requires Downcasts.Downcast(Hir.AnyType, to, ThunkCall()).Some?
  {
    Mir.Closure(THUNK_NAME, [], Lowering.Compile(p, Downcasts.Downcast(Hir.AnyType, to, ThunkCall()).value),
                [Mir.Binding(ANY_THUNK_NAME, thunk)] + menv)
  }

  lemma DowncastExists(to: Hir.Type)
    requires IsSpawnable(to)
    ensures Downcasts.Downcast(Hir.AnyType, to, ThunkCall()).Some?
  {
  }

  /** A call of an evaluated thunk, inside of the returned function. */
  lemma CallsThunk(w: World, p: Hir.Program, n: nat, menv: Mir.Environment, m: Mir.Value, trace: Trace)
    requires n > 0 && Mir.Lookup(menv, ANY_THUNK_NAME) == Some(Evaluated(m))
    ensures Simulation.Lowered(w, p, n, menv, trace, ThunkCall()) == Value(m, trace)
  {
    var q, f := Lowering.CompileProgram(p), Evaluated(m);
    var env := [Mir.Binding(ANY_THUNK_NAME, f)] + f.environment;
    assert env[1..] == f.environment && f.environment[0] == Mir.Binding(STORED_NAME, m);
    assert ANY_THUNK_NAME[1] != STORED_NAME[1];
    assert Mir.Lookup(env, STORED_NAME) == Some(m);
    assert Mir.Eval(w, q, n - 1, env, trace, Mir.Variable(STORED_NAME)) == Value(m, trace);
    assert Mir.Apply(w, q, n, f, [], trace) == Value(m, trace);
    assert Mir.Eval(w, q, n, menv, trace, Mir.Variable(ANY_THUNK_NAME)) == Value(f, trace);
    assert Mir.EvalAll(w, q, n, menv, trace, []) == Value([], trace);
    assert Lowering.CompileAll(p, []) == [];
  }

  lemma AppliesReturned(w: World, p: Hir.Program, n: nat, to: Hir.Type, menv: Mir.Environment, thunk: Mir.Value, trace: Trace)
    requires n > 0 && Downcasts.Downcast(Hir.AnyType, to, ThunkCall()).Some?
    ensures var f := Narrowing(p, to, menv, thunk);
            Mir.Apply(w, Lowering.CompileProgram(p), n, f, [], trace) ==
            EndCall(Simulation.Lowered(w, p, n - 1, [Mir.Binding(THUNK_NAME, f)] + f.environment, trace,
                                           Downcasts.Downcast(Hir.AnyType, to, ThunkCall()).value))
  {
    hide Mir.Eval, Lowering.Compile, Downcasts.Downcast;
  }

  /** The returned function narrows what the thunk has stored, without effects, and is stuck if that is of another type. */
  lemma ReturnedNarrows(w: World, p: Hir.Program, n: nat, to: Hir.Type, menv: Mir.Environment, v: Hir.Value, m: Mir.Value, trace: Trace)
    requires n > 1 && IsSpawnable(to) && Representation.Represents(p, Hir.AnyType, v, m)
    ensures Downcasts.Downcast(Hir.AnyType, to, ThunkCall()).Some?
    ensures var o := Mir.Apply(w, Lowering.CompileProgram(p), n, Narrowing(p, to, menv, Evaluated(m)), [], trace);
            if Hir.Accepts(to, Hir.TypeOf(v)) then o.Value? && o.trace == trace && Representation.Represents(p, to, v, o.value)
            else o.Stuck?
  {
    DowncastExists(to);
    var f := Narrowing(p, to, menv, Evaluated(m));
    var menv' := [Mir.Binding(THUNK_NAME, f)] + f.environment;
    assert menv'[1..] == f.environment && f.environment[0] == Mir.Binding(ANY_THUNK_NAME, Evaluated(m));
    assert THUNK_NAME[1] != ANY_THUNK_NAME[1];
    hide Mir.Eval, Mir.Apply, Lowering.Compile, Representation.Represents, Downcasts.Downcast;
    AppliesReturned(w, p, n, to, menv, Evaluated(m), trace);
    CallsThunk(w, p, n - 1, menv', m, trace);
    Downcasts.CompiledNarrows(w, p, n - 1, menv', trace, Hir.AnyType, to, ThunkCall(), v, m, trace);
  }

  lemma {:induction false} ReturnedGrows(actions: seq<Action>, i: nat)
    requires i <= |actions|
    ensures Returned(actions[..i]) <= Returned(actions)
    decreases |actions| - i
  {
    if i == |actions| {
      assert actions[..i] == actions;
    } else {
      ReturnedGrows(actions, i + 1);
      assert actions[..i + 1][..i] == actions[..i];
    }
  }

  /** The body of the thunk has been evaluated to a value, at some point and with some number of nested calls. */
  ghost predicate BodyReturned(w: World, p: Hir.Program, menv: Mir.Environment, self: Mir.Value, to: Hir.Type, e: Hir.Expression, m: Mir.Value) {
    exists n: nat, trace: Trace ::
      BodyRun(w, p, n, menv, self, trace, to, e).Value? && BodyRun(w, p, n, menv, self, trace, to, e).value == m
  }

  /** Runs of the protocol in which bodies return what the compiled body of the thunk evaluates to; `stored` decodes values. */
  ghost predicate RunsBody(w: World, p: Hir.Program, menv: Mir.Environment, self: Mir.Value, to: Hir.Type, e: Hir.Expression,
                           actions: seq<Action>, stored: Value -> Mir.Value)
  {
    forall v :: v in Returned(actions) ==> BodyReturned(w, p, menv, self, to, e, stored(v))
  }

  /**
   Spawning preserves meaning.  Whenever calls of the function that `go` returns have results, in
   whatever threads, the spawned function has been called once, and there is one evaluation of that
   call such that every call of the returned function yields its result at its original type, without
   further effects.  An argument of `go` that returns early instead leaves a value that is narrowed
   if it is of that type, and on which the returned function is stuck otherwise.
   */
  lemma SpawnPreservesMeaning(w: World, p: Hir.Program, env: Hir.Environment, menv: Mir.Environment, self: Mir.Value,
                              ret: Option<Hir.Type>, to: Hir.Type, e: Hir.Expression, stored: Value -> Mir.Value,
                              run: seq<State>, actions: seq<Action>, i: nat, t: nat, a: nat)
    returns (n: nat, trace: Trace, o: Hir.Result)
    requires Spawns(p, env, menv, ret, to, e) && (ret.Some? ==> Hir.IsVariant(ret.value))
    requires IsRun(run, actions) && RunsBody(w, p, menv, self, to, e, actions, stored)
    requires i < |run| && t < |run[i].threads| && a < |run[i].threads[t].log|
    ensures run[|actions|].runs == 1 && o == Hir.Eval(w, p, n, env, trace, SpawnedCall(e)) && (o.Value? || o.Return?)
    ensures o.Value? ==> Hir.Accepts(to, Hir.TypeOf(o.value))
    ensures forall j, u, b, k: nat, now: Trace :: k > 1 && 0 <= j < |run| && 0 <= u < |run[j].threads| && 0 <= b < |run[j].threads[u].log| ==>
              YieldsFinal(w, p, k, to, menv, stored(run[j].threads[u].log[b]), now, Final(o))
  {
    assert i <= |actions|;
    hide Representation.Represents, BodyRun, Hir.Eval, Simulation.Ready, IsRun, Apply, Enabled;
    ResultsAgree(run, actions, i, i, t, t, a, a);
    ResultsAreReturned(run, actions, i, t, a);
    ReturnedGrows(actions, i);
    RunsAtEnd(run, actions, i);
    var v := run[i].threads[t].log[a];
    n, trace :| BodyRun(w, p, n, menv, self, trace, to, e).Value? && BodyRun(w, p, n, menv, self, trace, to, e).value == stored(v);
    BodyRepresents(w, p, n, env, menv, self, trace, ret, to, e);
    o := Hir.Eval(w, p, n, env, trace, SpawnedCall(e));
    forall j, u, b, k: nat, now: Trace | k > 1 && 0 <= j < |run| && 0 <= u < |run[j].threads| && 0 <= b < |run[j].threads[u].log|
      ensures YieldsFinal(w, p, k, to, menv, stored(run[j].threads[u].log[b]), now, Final(o))
    {
      ResultsAgree(run, actions, i, j, t, u, a, b);
      ReturnedNarrows(w, p, k, to, menv, Final(o), stored(v), now);
    }
  }

  /** An expression that does not pass errors on, but in functions of its own. */
  predicate PassesNothing(e: Hir.Expression)
    decreases e, 0
  {
    match e
    case Constant(_) => true
    case Variable(_) => true
    case If(condition, consequence, alternative) => PassesNothing(condition) && PassesNothing(consequence) && PassesNothing(alternative)
    case Let(_, _, bound, body) => PassesNothing(bound) && PassesNothing(body)
    case Lambda(_, _, _) => true
    case Call(callee, operands) => PassesNothing(callee) && forall i :: 0 <= i < |operands| ==> PassesNothing(operands[i])
    case IfType(_, argument, branches, otherwise) =>
      && PassesNothing(argument) && (forall i :: 0 <= i < |branches| ==> BranchPassesNothing(branches[i]))
      && (otherwise.Some? ==> BranchPassesNothing(otherwise.value))
    case Coerce(_, _, argument) => PassesNothing(argument)
    case Construct(_, fields) => forall i :: 0 <= i < |fields| ==> FieldPassesNothing(fields[i])
    case Select(_, argument, _) => PassesNothing(argument)
    case Update(_, argument, fields) => PassesNothing(argument) && forall i :: 0 <= i < |fields| ==> FieldPassesNothing(fields[i])
    case Not(argument) => PassesNothing(argument)
    case And(left, right) => PassesNothing(left) && PassesNothing(right)
    case Or(left, right) => PassesNothing(left) && PassesNothing(right)
    case Numeric(_, left, right) => PassesNothing(left) && PassesNothing(right)
    case NotEqual(left, right) => PassesNothing(left) && PassesNothing(right)
    case Try(_, _) => false
  }

  predicate BranchPassesNothing(branch: Hir.Branch)
    decreases branch, 0
  {
    match branch
    case Branch(_, body) => PassesNothing(body)
  }

  predicate FieldPassesNothing(field: Hir.Field)
    decreases field, 0
  {
    match field
    case Field(_, expression) => PassesNothing(expression)
  }

  /** Such an expression does not return early: calls end the early returns of the functions that they call. */
  lemma {:induction false} NeverReturns(w: World, p: Hir.Program, n: nat, env: Hir.Environment, trace: Trace, e: Hir.Expression)
    requires PassesNothing(e)
    ensures !Hir.Eval(w, p, n, env, trace, e).Return?
    decreases e, 1
  {
    if e.If? || e.Let? {
      ControlNeverReturns(w, p, n, env, trace, e);
    } else if e.Call? || e.Construct? || e.Update? {
      PartsNeverReturn(w, p, n, env, trace, e);
    } else if e.IfType? {
      TestNeverReturns(w, p, n, env, trace, e);
    } else if e.Not? || e.Select? || e.Coerce? {
      NeverReturns(w, p, n, env, trace, e.argument);
    } else if e.And? || e.Or? || e.Numeric? || e.NotEqual? {
      OperandsNeverReturn(w, p, n, env, trace, e);
    }
  }

  lemma {:induction false} ControlNeverReturns(w: World, p: Hir.Program, n: nat, env: Hir.Environment, trace: Trace, e: Hir.Expression)
    requires (e.If? || e.Let?) && PassesNothing(e)
    ensures !Hir.Eval(w, p, n, env, trace, e).Return?
    decreases e, 0
  {
    if e.If? {
      NeverReturns(w, p, n, env, trace, e.condition);
      var o := Hir.Eval(w, p, n, env, trace, e.condition);
      if o.Value? {
        NeverReturns(w, p, n, env, o.trace, e.consequence);
        NeverReturns(w, p, n, env, o.trace, e.alternative);
      }
    } else {
      NeverReturns(w, p, n, env, trace, e.bound);
      var o := Hir.Eval(w, p, n, env, trace, e.bound);
      if o.Value? {
        NeverReturns(w, p, n, Hir.Bind(env, e.bound_name, e.annotation, o.value), o.trace, e.body);
      }
    }
  }

  lemma {:induction false} OperandsNeverReturn(w: World, p: Hir.Program, n: nat, env: Hir.Environment, trace: Trace, e: Hir.Expression)
    requires (e.And? || e.Or? || e.Numeric? || e.NotEqual?) && PassesNothing(e)
    ensures !Hir.Eval(w, p, n, env, trace, e).Return?
    decreases e, 0
  {
    NeverReturns(w, p, n, env, trace, e.left);
    var o := Hir.Eval(w, p, n, env, trace, e.left);
    if o.Value? {
      NeverReturns(w, p, n, env, o.trace, e.right);
    }
  }

  lemma {:induction false} PartsNeverReturn(w: World, p: Hir.Program, n: nat, env: Hir.Environment, trace: Trace, e: Hir.Expression)
    requires (e.Call? || e.Construct? || e.Update?) && PassesNothing(e)
    ensures !Hir.Eval(w, p, n, env, trace, e).Return?
    decreases e, 0
  {
    if e.Construct? {
      FieldsNeverReturn(w, p, n, env, trace, e.fields);
    } else {
      var first := if e.Call? then e.callee else e.argument;
      NeverReturns(w, p, n, env, trace, first);
      var o := Hir.Eval(w, p, n, env, trace, first);
      if o.Value? {
        if e.Call? {
          AllNeverReturn(w, p, n, env, o.trace, e.operands);
          CallsEnd(w, p, n, o.value, Hir.EvalAll(w, p, n, env, o.trace, e.operands));
        } else {
          FieldsNeverReturn(w, p, n, env, o.trace, e.fields);
        }
      }
    }
  }

  lemma CallsEnd(w: World, p: Hir.Program, n: nat, f: Hir.Value, o: Hir.Results)
    ensures o.Value? ==> !Hir.Apply(w, p, n, f, o.value, o.trace).Return?
  {
    hide Hir.Eval;
  }

  lemma {:induction false} TestNeverReturns(w: World, p: Hir.Program, n: nat, env: Hir.Environment, trace: Trace, e: Hir.Expression)
    requires e.IfType? && PassesNothing(e)
    ensures !Hir.Eval(w, p, n, env, trace, e).Return?
    decreases e, 0
  {
    NeverReturns(w, p, n, env, trace, e.argument);
    var o := Hir.Eval(w, p, n, env, trace, e.argument);
    if o.Value? {
      var i := Hir.SelectBranch(e.branches, Hir.TypeOf(o.value));
      if i < |e.branches| {
        BranchNeverReturns(w, p, n, env, o.trace, e.name, o.value, e.branches[i]);
      } else if e.otherwise.Some? {
        BranchNeverReturns(w, p, n, env, o.trace, e.name, o.value, e.otherwise.value);
      }
    }
  }

  lemma {:induction false} BranchNeverReturns(w: World, p: Hir.Program, n: nat, env: Hir.Environment, trace: Trace, name: string,
                                              v: Hir.Value, branch: Hir.Branch)
    requires BranchPassesNothing(branch)
    ensures !Hir.EvalBranch(w, p, n, env, trace, name, v, branch).Return?
    decreases branch, 0
  {
    match branch
    case Branch(annotation, body) => NeverReturns(w, p, n, [Hir.Binding(name, annotation, v)] + env, trace, body);
  }

  lemma {:induction false} AllNeverReturn(w: World, p: Hir.Program, n: nat, env: Hir.Environment, trace: Trace, es: seq<Hir.Expression>)
    requires forall i :: 0 <= i < |es| ==> PassesNothing(es[i])
    ensures !Hir.EvalAll(w, p, n, env, trace, es).Return?
    decreases es, 0
  {
    hide Hir.Eval, PassesNothing;
    if es != [] {
      NeverReturns(w, p, n, env, trace, es[0]);
      var o := Hir.Eval(w, p, n, env, trace, es[0]);
      if o.Value? {
        AllNeverReturn(w, p, n, env, o.trace, es[1..]);
      }
    }
  }

  lemma {:induction false} FieldsNeverReturn(w: World, p: Hir.Program, n: nat, env: Hir.Environment, trace: Trace, fields: seq<Hir.Field>)
    requires forall i :: 0 <= i < |fields| ==> FieldPassesNothing(fields[i])
    ensures !Hir.EvalFields(w, p, n, env, trace, fields).Return?
    decreases fields, 0
  {
    hide Hir.EvalField, FieldPassesNothing;
    if fields != [] {
      FieldNeverReturns(w, p, n, env, trace, fields[0]);
      var o := Hir.EvalField(w, p, n, env, trace, fields[0]);
      if o.Value? {
        FieldsNeverReturn(w, p, n, env, o.trace, fields[1..]);
      }
    }
  }

  lemma {:induction false} FieldNeverReturns(w: World, p: Hir.Program, n: nat, env: Hir.Environment, trace: Trace, field: Hir.Field)
    requires FieldPassesNothing(field)
    ensures !Hir.EvalField(w, p, n, env, trace, field).Return?
    decreases field, 0
  {
    match field
    case Field(_, expression) => NeverReturns(w, p, n, env, trace, expression);
  }

  /**
   If the argument of `go` does not pass errors on, every call of the returned function gives the
   result of the spawned function, in every thread and every run.
   */
  lemma SpawnedResultIsReturned(w: World, p: Hir.Program, env: Hir.Environment, menv: Mir.Environment, self: Mir.Value,
                                ret: Option<Hir.Type>, to: Hir.Type, e: Hir.Expression, stored: Value -> Mir.Value,
                                run: seq<State>, actions: seq<Action>, i: nat, t: nat, a: nat)
    returns (n: nat, trace: Trace, o: Hir.Result)
    requires Spawns(p, env, menv, ret, to, e) && (ret.Some? ==> Hir.IsVariant(ret.value)) && PassesNothing(e)
    requires IsRun(run, actions) && RunsBody(w, p, menv, self, to, e, actions, stored)
    requires i < |run| && t < |run[i].threads| && a < |run[i].threads[t].log|
    ensures run[|actions|].runs == 1 && o == Hir.Eval(w, p, n, env, trace, SpawnedCall(e)) && o.Value?
    ensures forall j, u, b, k: nat, now: Trace :: k > 1 && 0 <= j < |run| && 0 <= u < |run[j].threads| && 0 <= b < |run[j].threads[u].log| ==>
              Yields(w, p, k, to, menv, stored(run[j].threads[u].log[b]), now, o.value)
  {
    hide Spawns, IsRun, RunsBody, YieldsFinal, Hir.Eval;
    n, trace, o := SpawnPreservesMeaning(w, p, env, menv, self, ret, to, e, stored, run, actions, i, t, a);
    CallNeverReturns(w, p, n, env, trace, e);
    forall j, u, b, k: nat, now: Trace | k > 1 && 0 <= j < |run| && 0 <= u < |run[j].threads| && 0 <= b < |run[j].threads[u].log|
      ensures Yields(w, p, k, to, menv, stored(run[j].threads[u].log[b]), now, o.value)
    {
      var m := stored(run[j].threads[u].log[b]);
      assert YieldsFinal(w, p, k, to, menv, m, now, Final(o));
      FinalIsYielded(w, p, k, to, menv, m, now, o.value);
    }
  }

  lemma CallNeverReturns(w: World, p: Hir.Program, n: nat, env: Hir.Environment, trace: Trace, e: Hir.Expression)
    requires PassesNothing(e)
    ensures !Hir.Eval(w, p, n, env, trace, SpawnedCall(e)).Return?
  {
    NeverReturns(w, p, n, env, trace, SpawnedCall(e));
  }

  /** A call of the returned function, where the thunk has stored a value, yields that value at the original type without effects. */
  ghost predicate Yields(w: World, p: Hir.Program, n: nat, to: Hir.Type, menv: Mir.Environment, m: Mir.Value, trace: Trace, v: Hir.Value) {
    && Downcasts.Downcast(Hir.AnyType, to, ThunkCall()).Some?
    && var o := Mir.Apply(w, Lowering.CompileProgram(p), n, Narrowing(p, to, menv, Evaluated(m)), [], trace);
       o.Value? && o.trace == trace && Representation.Represents(p, to, v, o.value)
  }

  lemma FinalIsYielded(w: World, p: Hir.Program, n: nat, to: Hir.Type, menv: Mir.Environment, m: Mir.Value, trace: Trace, v: Hir.Value)
    requires YieldsFinal(w, p, n, to, menv, m, trace, v) && Hir.Accepts(to, Hir.TypeOf(v))
    ensures Yields(w, p, n, to, menv, m, trace, v)
  {
  }

  lemma RunsAtEnd(run: seq<State>, actions: seq<Action>, i: nat)
    requires IsRun(run, actions) && i < |run| && run[i].runs == 1
    ensures run[|actions|].runs == 1
  {
    hide Apply, Enabled;
    RunGrows(run, actions, i, |actions|);
    RunInv(run, actions, |actions|);
  }

  /** A call of the returned function, where the thunk has stored a value, yields a value at the original type if it is of that type. */
  ghost predicate YieldsFinal(w: World, p: Hir.Program, n: nat, to: Hir.Type, menv: Mir.Environment, m: Mir.Value, trace: Trace, v: Hir.Value) {
    && Downcasts.Downcast(Hir.AnyType, to, ThunkCall()).Some?
    && var o := Mir.Apply(w, Lowering.CompileProgram(p), n, Narrowing(p, to, menv, Evaluated(m)), [], trace);
       if Hir.Accepts(to, Hir.TypeOf(v)) then o.Value? && o.trace == trace && Representation.Represents(p, to, v, o.value)
       else o.Stuck?
  }

  // ----- Early returns -----

  const FALLIBLE: Hir.Type := Hir.UnionType([Hir.NoneType, Hir.ErrorType])
  const EMPTY: Hir.Program := Hir.Program([], [], [])

  const FAILURE: Hir.Expression :=
    Hir.Try(Some(Hir.NoneType), Hir.Coerce(Hir.ErrorType, FALLIBLE, Hir.Constant(Error(0))))

  const NUMBER_FUNCTION: Hir.Expression := Hir.Lambda([], Hir.NumberType, Hir.Constant(Number(1)))

  /** A function without arguments, after an error that is passed on. */
  const FAILING_ARGUMENT: Hir.Expression := Hir.Let(None, Some(Hir.NoneType), FAILURE, NUMBER_FUNCTION)

  lemma FailureIsTyped()
    ensures HirTypes.Infer(EMPTY, [], Some(FALLIBLE), FAILURE) == Some(Hir.NoneType)
  {
    var ret := Some(FALLIBLE);
    assert FALLIBLE.members[0] == Hir.NoneType && FALLIBLE.members[1] == Hir.ErrorType;
    assert HirTypes.CanCoerce(Hir.ErrorType, FALLIBLE);
    assert HirTypes.CanFail(ret) && HirTypes.IsTestable(Hir.NoneType);
    hide HirTypes.CanCoerce, HirTypes.CanFail, HirTypes.IsTestable;
    assert HirTypes.Infer(EMPTY, [], ret, Hir.Constant(Error(0))) == Some(Hir.ErrorType);
    assert HirTypes.Infer(EMPTY, [], ret, FAILURE.argument) == Some(FALLIBLE);
  }

  lemma FailingArgumentIsTyped()
    ensures HirTypes.Infer(EMPTY, [], Some(FALLIBLE), FAILING_ARGUMENT) == Some(Hir.FunctionType([], Hir.NumberType))
  {
    var ret := Some(FALLIBLE);
    FailureIsTyped();
    assert HirTypes.BindTypes([], []) == [] && HirTypes.UserNames([]);
    assert HirTypes.Infer(EMPTY, [], Some(Hir.NumberType), Hir.Constant(Number(1))) == Some(Hir.NumberType);
    assert HirTypes.Infer(EMPTY, [], ret, NUMBER_FUNCTION) == Some(Hir.FunctionType([], Hir.NumberType));
  }

  lemma FailingArgumentReturns(w: World, n: nat, trace: Trace)
    ensures Hir.Eval(w, EMPTY, n, [], trace, SpawnedCall(FAILING_ARGUMENT)) == Return(Hir.Plain(Error(0)), trace)
  {
    assert Hir.Eval(w, EMPTY, n, [], trace, FAILURE.argument) == Value(Hir.Plain(Error(0)), trace);
    assert Hir.Eval(w, EMPTY, n, [], trace, FAILURE) == Return(Hir.Plain(Error(0)), trace);
    assert Hir.Eval(w, EMPTY, n, [], trace, FAILING_ARGUMENT) == Return(Hir.Plain(Error(0)), trace);
  }

  /**
   The argument of `go` is evaluated by the thunk.  An error that it passes on does not leave the
   enclosing function but ends up in the thunk, and the returned function is stuck on it.
   */
  lemma EarlyReturnIsLost(w: World, n: nat, k: nat, self: Mir.Value, trace: Trace, now: Trace)
    requires k > 1
    ensures Spawns(EMPTY, [], [], Some(FALLIBLE), Hir.NumberType, FAILING_ARGUMENT)
    ensures Hir.Eval(w, EMPTY, n, [], trace, SpawnedCall(FAILING_ARGUMENT)) == Return(Hir.Plain(Error(0)), trace)
    ensures Downcasts.Downcast(Hir.AnyType, Hir.NumberType, ThunkCall()).Some?
    ensures var r := BodyRun(w, EMPTY, n, [], self, trace, Hir.NumberType, FAILING_ARGUMENT);
            && r.Value?
            && Mir.Apply(w, Lowering.CompileProgram(EMPTY), k,
                         Narrowing(EMPTY, Hir.NumberType, [], Evaluated(r.value)), [], now).Stuck?
  {
    FailingArgumentIsTyped();
    FailingArgumentReturns(w, n, trace);
    var env: Hir.Environment, menv: Mir.Environment, ret, to := [], [], Some(FALLIBLE), Hir.NumberType;
    assert Representation.TypesOf(env) == [];
    assert Spawns(EMPTY, env, menv, ret, to, FAILING_ARGUMENT);
    hide Hir.Eval, Mir.Eval, Mir.Apply, HirTypes.Infer, Lowering.Compile, Representation.Represents;
    var menv' := ThunkEnvironment(menv, self);
    Representation.GeneratedMirrors(EMPTY, env, menv, ANY_THUNK_NAME, self);
    BodyIsTyped(EMPTY, Representation.TypesOf(env), ret, to, FAILING_ARGUMENT);
    CoercionEvaluates(w, EMPTY, n, env, trace, to, SpawnedCall(FAILING_ARGUMENT));
    Simulation.Simulates(w, EMPTY, n, env, menv', trace, ret, ThunkBody(to, FAILING_ARGUMENT), Hir.AnyType);
    BodyRepresents(w, EMPTY, n, env, menv, self, trace, ret, to, FAILING_ARGUMENT);
    var r := BodyRun(w, EMPTY, n, menv, self, trace, to, FAILING_ARGUMENT);
    ReturnedNarrows(w, EMPTY, k, to, menv, Hir.Plain(Error(0)), r.value, now);
  }
}
