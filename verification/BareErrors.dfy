/**
 Functions that return nothing but errors.  The checks let them pass errors on with `?`, but the
 early return yields a variant, as in functions that return errors among other values.
 */
module BareErrors {
  import opened Sums
  import opened Semantics
  import opened Analysis
  import AnalysisTheorems
  import AnalyzedPrograms
  import Ast
  import AstLowering
  import Fmm
  import FmmTheorems
  import Hir
  import HirTypes
  import Lowering
  import LoweringTheorems
  import Mir
  import Pipeline

  /** `f = \() error { (if false { none } else { error 0 })?; error 1 }` */
  const CHOICE: Ast.Expression :=
    Ast.If([Ast.IfBranch(Ast.Literal(Boolean(false)), Ast.Block([], Ast.Literal(None_)))], Ast.Block([], Ast.Literal(Error(0))))

  const BODY: Ast.Block := Ast.Block([Ast.Statement(None, Ast.Try(CHOICE))], Ast.Literal(Error(1)))

  const SOURCE: Ast.Program := Ast.Program([], [], [Ast.Definition("f", [], Hir.ErrorType, BODY)])

  const LOWERED_CHOICE: Hir.Expression := Hir.If(Hir.Constant(Boolean(false)), Hir.Constant(None_), Hir.Constant(Error(0)))

  const LOWERED: Hir.Program :=
    Hir.Program([], [], [Hir.Definition(
      "f", [], Hir.ErrorType, Hir.Let(None, None, Hir.Try(None, LOWERED_CHOICE), Hir.Constant(Error(1))))])

  lemma Lowers()
    ensures AstLowering.LowerProgram(SOURCE) == LOWERED
  {
    assert AstLowering.LowerIf(CHOICE, 1) == Hir.Constant(Error(0));
    assert AstLowering.Lower(CHOICE) == LOWERED_CHOICE;
    assert AstLowering.LowerStatement(BODY.statements[0]) == Hir.Try(None, LOWERED_CHOICE);
    assert AstLowering.LowerLast(BODY) == Hir.Constant(Error(1));
    assert AstLowering.LowerBlock(BODY, 1) == Hir.Constant(Error(1));
    assert AstLowering.LowerBlock(BODY, 0) == LOWERED.functions[0].body;
    assert SOURCE.functions[1..] == [];
  }

  lemma LoweredIsSource(o: Order)
    ensures AnalysisTheorems.IsSourceProgram(o, LOWERED) && !AnalyzedPrograms.AvoidsBareErrors(LOWERED)
  {
    var d := LOWERED.functions[0];
    assert AnalysisTheorems.IsSource(o, LOWERED_CHOICE);
    assert AnalysisTheorems.IsSource(o, d.body);
    assert AnalysisTheorems.IsSourceDefinition(o, d);
    assert !TriesReturn(AnalyzedPrograms.IsNotBareError, d.result, d.body);
  }

  // ----- Analysis -----

  /** Nothing or an error. */
  function Fallible(o: Order): Hir.Type {
    var t := Union(o, [Hir.NoneType, Hir.ErrorType]);
    if t.Some? then t.value else Hir.AnyType
  }

  lemma PairMembers(ts: seq<Hir.Type>, x: Hir.Type)
    requires ts == [Hir.NoneType, Hir.ErrorType]
    ensures AnalysisTheorems.IsMember(x, ts) <==> x == Hir.NoneType || x == Hir.ErrorType
  {
    assert Hir.NoneType in Hir.Members(ts[0]) && Hir.ErrorType in Hir.Members(ts[1]);
  }

  lemma WithoutErrors(o: Order, members: seq<Hir.Type>)
    requires IsOrder(o) && Sorted(o, members) && forall x :: x in members <==> x == Hir.NoneType || x == Hir.ErrorType
    ensures Without(members, [Hir.ErrorType]) == [Hir.NoneType]
  {
    AnalysisTheorems.WithoutFacts(o, members, [Hir.ErrorType]);
    hide Without, IsOrder;
    AnalysisTheorems.SortedIsUnique(o, Without(members, [Hir.ErrorType]), [Hir.NoneType]);
  }

  lemma TwoMembers(t: Hir.Type)
    requires Hir.NoneType in Hir.Members(t) && Hir.ErrorType in Hir.Members(t)
    ensures t.UnionType?
  {
  }

  lemma FallibleIsUnion(o: Order)
    requires IsOrder(o)
    ensures var t := Fallible(o);
            && Union(o, [Hir.NoneType, Hir.ErrorType]) == Some(t) && Canonical(o, t) && t.UnionType?
            && (forall x :: x in t.members <==> x == Hir.NoneType || x == Hir.ErrorType)
  {
    var ts := [Hir.NoneType, Hir.ErrorType];
    AnalysisTheorems.UnionFacts(o, ts);
    hide Union, IsOrder, Canonical;
    var t := Fallible(o);
    forall x ensures x in Hir.Members(t) <==> x == Hir.NoneType || x == Hir.ErrorType {
      PairMembers(ts, x);
    }
    TwoMembers(t);
  }

  lemma FallibleFacts(o: Order)
    requires IsOrder(o)
    ensures Union(o, [Hir.NoneType, Hir.ErrorType]) == Some(Fallible(o)) && Fallible(o).UnionType?
    ensures Difference(Fallible(o), Hir.ErrorType) == Some(Hir.NoneType)
    ensures IsSubsumed(Hir.NoneType, Fallible(o)) && IsSubsumed(Hir.ErrorType, Fallible(o)) && IsSubsumed(Fallible(o), Fallible(o))
  {
    FallibleIsUnion(o);
    var t := Fallible(o);
    hide Union, Without, IsOrder, Fallible;
    WithoutErrors(o, t.members);
    assert Hir.Members(Hir.ErrorType) == [Hir.ErrorType];
  }

  function TypedChoice(o: Order): Hir.Expression {
    Hir.If(Hir.Constant(Boolean(false)), Hir.Coerce(Hir.NoneType, Fallible(o), Hir.Constant(None_)),
           Hir.Coerce(Hir.ErrorType, Fallible(o), Hir.Constant(Error(0))))
  }

  function TypedBody(o: Order): Hir.Expression {
    Hir.Let(None, Some(Hir.NoneType), Hir.Try(Some(Hir.NoneType), TypedChoice(o)), Hir.Constant(Error(1)))
  }

  lemma ChoiceIsCoerced(o: Order, p: Hir.Program)
    requires IsOrder(o)
    ensures InferTypes(o, p, [], LOWERED_CHOICE) == Some(LOWERED_CHOICE) && Check(o, p, [], LOWERED_CHOICE) == Some(Fallible(o))
    ensures Extract(o, p, [], LOWERED_CHOICE) == Some(Fallible(o)) && CoerceTypes(o, p, [], LOWERED_CHOICE) == Some(TypedChoice(o))
  {
    FallibleFacts(o);
    hide Union, Difference, Fallible;
    var a, b := Hir.Constant(None_), Hir.Constant(Error(0));
    assert Extract(o, p, [], a) == Some(Hir.NoneType) && Extract(o, p, [], b) == Some(Hir.ErrorType);
    assert Extract(o, p, [], LOWERED_CHOICE) == Some(Fallible(o));
    assert CoerceTypes(o, p, [], a) == Some(a) && CoerceTypes(o, p, [], b) == Some(b);
  }

  lemma ChoiceIsCheckedAgain(o: Order, p: Hir.Program)
    requires IsOrder(o)
    ensures Check(o, p, [], TypedChoice(o)) == Some(Fallible(o))
  {
    FallibleIsUnion(o);
    FallibleFacts(o);
    var t := Fallible(o);
    AnalysisTheorems.UnionOfSame(o, [t, t], t);
    hide Union, Fallible, IsOrder, Canonical;
    var a, b := Hir.Coerce(Hir.NoneType, t, Hir.Constant(None_)), Hir.Coerce(Hir.ErrorType, t, Hir.Constant(Error(0)));
    CoercionIsChecked(o, p, None_, t);
    CoercionIsChecked(o, p, Error(0), t);
    assert Extract(o, p, [], TypedChoice(o)) == Some(t);
  }

  lemma CoercionIsChecked(o: Order, p: Hir.Program, base: Base, t: Hir.Type)
    requires IsSubsumed(Hir.BaseType(base), t)
    ensures var e := Hir.Coerce(Hir.BaseType(base), t, Hir.Constant(base));
            Check(o, p, [], e) == Some(t) && Extract(o, p, [], e) == Some(t)
  {
  }

  const TRIED: Hir.Expression := Hir.Try(Some(Hir.NoneType), LOWERED_CHOICE)

  lemma TryIsAnalyzed(o: Order, p: Hir.Program, e: Hir.Expression, coerced: Hir.Expression, t: Hir.Type)
    requires InferTypes(o, p, [], e) == Some(e) && Extract(o, p, [], e) == Some(t) && Check(o, p, [], e) == Some(t)
    requires CoerceTypes(o, p, [], e) == Some(coerced) && Check(o, p, [], coerced) == Some(t)
    requires Union(o, [Hir.NoneType, Hir.ErrorType]) == Some(t) && Difference(t, Hir.ErrorType) == Some(Hir.NoneType)
    requires IsSubsumed(Hir.NoneType, t) && IsSubsumed(Hir.ErrorType, t) && IsSubsumed(t, t)
    ensures var tried := Hir.Try(Some(Hir.NoneType), e);
            && InferTypes(o, p, [], Hir.Try(None, e)) == Some(tried)
            && Check(o, p, [], tried) == Some(Hir.NoneType) && Extract(o, p, [], tried) == Some(Hir.NoneType)
            && CoerceTypes(o, p, [], tried) == Some(Hir.Try(Some(Hir.NoneType), coerced))
    ensures Check(o, p, [], Hir.Try(Some(Hir.NoneType), coerced)) == Some(Hir.NoneType)
  {
    hide Union, Difference, IsSubsumed;
  }

  function Then(annotation: Option<Hir.Type>, e: Hir.Expression): Hir.Expression {
    Hir.Let(None, annotation, e, Hir.Constant(Error(1)))
  }

  /** A statement before an error. */
  lemma StatementIsAnalyzed(o: Order, p: Hir.Program, e: Hir.Expression, inferred: Hir.Expression, coerced: Hir.Expression)
    requires InferTypes(o, p, [], e) == Some(inferred) && Extract(o, p, [], inferred) == Some(Hir.NoneType)
    requires Check(o, p, [], inferred) == Some(Hir.NoneType) && TriesReturn(PassesErrors, Hir.ErrorType, inferred)
    requires CoerceTypes(o, p, [], inferred) == Some(coerced) && Check(o, p, [], coerced) == Some(Hir.NoneType)
    ensures var d := Hir.Definition("f", [], Hir.ErrorType, Then(None, e));
            AnalyzeDefinition(o, p, d) == Some(d.(body := Then(Some(Hir.NoneType), coerced)))
  {
    hide InferTypes, Check, CoerceTypes, TriesReturn, Extract, Then, CoerceDefinition, AnalyzeDefinition;
    ThenIsInferred(o, p, e, inferred);
    ThenIsCoerced(o, p, inferred, coerced);
    var d := Hir.Definition("f", [], Hir.ErrorType, Then(None, e));
    DefinitionIsAnalyzed(o, p, d, Then(Some(Hir.NoneType), inferred), Then(Some(Hir.NoneType), coerced));
  }

  lemma DefinitionIsAnalyzed(o: Order, p: Hir.Program, d: Hir.Definition, body: Hir.Expression, coerced: Hir.Expression)
    requires d.arguments == [] && d.result.ErrorType? && InferTypes(o, p, [], d.body) == Some(body)
    requires Check(o, p, [], body) == Some(d.result) && TriesReturn(PassesErrors, d.result, body)
    requires CoerceTypes(o, p, [], body) == Some(coerced) && Extract(o, p, [], coerced) == Some(d.result)
    requires Check(o, p, [], coerced) == Some(d.result)
    ensures AnalyzeDefinition(o, p, d) == Some(d.(body := coerced))
  {
    hide InferTypes, Check, CoerceTypes, TriesReturn, Extract;
    assert HirTypes.BindTypes([], d.arguments) == [];
  }

  lemma ThenIsInferred(o: Order, p: Hir.Program, e: Hir.Expression, inferred: Hir.Expression)
    requires InferTypes(o, p, [], e) == Some(inferred) && Extract(o, p, [], inferred) == Some(Hir.NoneType)
    requires Check(o, p, [], inferred) == Some(Hir.NoneType) && TriesReturn(PassesErrors, Hir.ErrorType, inferred)
    ensures var body := Then(Some(Hir.NoneType), inferred);
            && InferTypes(o, p, [], Then(None, e)) == Some(body) && Check(o, p, [], body) == Some(Hir.ErrorType)
            && TriesReturn(PassesErrors, Hir.ErrorType, body)
  {
    var last := Hir.Constant(Error(1));
    assert InferTypes(o, p, [], last) == Some(last) && Check(o, p, [], last) == Some(Hir.ErrorType);
  }

  lemma ThenIsCoerced(o: Order, p: Hir.Program, inferred: Hir.Expression, coerced: Hir.Expression)
    requires CoerceTypes(o, p, [], inferred) == Some(coerced) && Check(o, p, [], coerced) == Some(Hir.NoneType)
    ensures CoerceTypes(o, p, [], Then(Some(Hir.NoneType), inferred)) == Some(Then(Some(Hir.NoneType), coerced))
    ensures Extract(o, p, [], Then(Some(Hir.NoneType), coerced)) == Some(Hir.ErrorType)
    ensures Check(o, p, [], Then(Some(Hir.NoneType), coerced)) == Some(Hir.ErrorType)
  {
    var last := Hir.Constant(Error(1));
    assert Check(o, p, [], last) == Some(Hir.ErrorType);
    assert Extract(o, p, [], last) == Some(Hir.ErrorType) && CoerceTypes(o, p, [], last) == Some(last);
  }

  lemma OneIsAnalyzed(o: Order, p: Hir.Program, d: Hir.Definition, d': Hir.Definition)
    requires AnalyzeDefinition(o, p, d) == Some(d')
    ensures AnalyzeDefinitions(o, p, [d]) == Some([d'])
  {
    hide AnalyzeDefinition;
    assert [d][1..] == [];
    var none: seq<Hir.Definition> := [];
    assert AnalyzeDefinitions(o, p, [d][1..]) == Some(none);
    assert [d'] + none == [d'];
  }

  function Typed(o: Order): Hir.Program {
    Hir.Program([], [], [Hir.Definition("f", [], Hir.ErrorType, TypedBody(o))])
  }

  lemma ProgramIsAccepted(o: Order)
    requires IsOrder(o)
    ensures Analyze(o, LOWERED) == Some(Typed(o))
  {
    hide InferTypes, Check, CoerceTypes, TriesReturn, Extract, TypedChoice, AnalyzeDefinition, AnalyzeDefinitions, Union, Difference,
         IsSubsumed, Fallible;
    var d, e := LOWERED.functions[0], Hir.Try(None, LOWERED_CHOICE);
    var coerced := Hir.Try(Some(Hir.NoneType), TypedChoice(o));
    ChoiceIsCoerced(o, LOWERED);
    ChoiceIsCheckedAgain(o, LOWERED);
    FallibleFacts(o);
    TryIsAnalyzed(o, LOWERED, LOWERED_CHOICE, TypedChoice(o), Fallible(o));
    TriedReturns();
    StatementIsAnalyzed(o, LOWERED, e, TRIED, coerced);
    OneIsAnalyzed(o, LOWERED, d, Typed(o).functions[0]);
  }

  lemma TriedReturns()
    ensures TriesReturn(PassesErrors, Hir.ErrorType, TRIED)
  {
  }

  // ----- Code -----

  const ERROR_TAG: Mir.Type := Lowering.Concrete(Hir.ErrorType)

  /** What compiled code makes of a choice is tagged, and so is what an early return gives back. */
  lemma ChoiceIsTagged(w: World, q: Mir.Program, p: Hir.Program, o: Order, n: nat, env: Mir.Environment)
    ensures Mir.Eval(w, q, n, env, [], Lowering.Compile(p, TypedChoice(o))) == Value(Mir.Tagged(ERROR_TAG, Mir.Plain(Error(0))), [])
  {
    var e := Hir.Coerce(Hir.ErrorType, Fallible(o), Hir.Constant(Error(0)));
    assert Lowering.Compile(p, Hir.Constant(Error(0))) == Mir.Constant(Error(0));
    assert Lowering.Compile(p, e) == Mir.Variant(ERROR_TAG, Mir.Constant(Error(0)));
    assert Lowering.Compile(p, Hir.Constant(Boolean(false))) == Mir.Constant(Boolean(false));
    assert Mir.Eval(w, q, n, env, [], Mir.Constant(Error(0))) == Value(Mir.Plain(Error(0)), []);
    assert Mir.Eval(w, q, n, env, [], Lowering.Compile(p, e)) == Value(Mir.Tagged(ERROR_TAG, Mir.Plain(Error(0))), []);
    assert Mir.Eval(w, q, n, env, [], Mir.Constant(Boolean(false))) == Value(Mir.Plain(Boolean(false)), []);
  }

  lemma BodyReturnsTagged(w: World, q: Mir.Program, p: Hir.Program, o: Order, n: nat, env: Mir.Environment)
    ensures Mir.Eval(w, q, n, env, [], Lowering.Compile(p, TypedBody(o))) == Return(Mir.Tagged(ERROR_TAG, Mir.Plain(Error(0))), [])
  {
    ChoiceIsTagged(w, q, p, o, n, env);
    hide TypedChoice;
    var v := Mir.Tagged(ERROR_TAG, Mir.Plain(Error(0)));
    var operand := Lowering.Compile(p, TypedChoice(o));
    var handler := Mir.Variant(ERROR_TAG, Mir.Variable(Lowering.ERROR_NAME));
    var inner := [Mir.Binding(Lowering.ERROR_NAME, Mir.Narrow(v, [ERROR_TAG]))] + env;
    assert Mir.Eval(w, q, n, inner, [], Mir.Variable(Lowering.ERROR_NAME)) == Value(Mir.Plain(Error(0)), []);
    assert Mir.Eval(w, q, n, inner, [], handler) == Value(v, []);
    var try_ := Mir.TryOperation(operand, Lowering.ERROR_NAME, ERROR_TAG, handler);
    assert Mir.Eval(w, q, n, env, [], try_) == Return(v, []);
    assert Mir.Eval(w, q, n, env, [], Lowering.Compile(p, Hir.Try(Some(Hir.NoneType), TypedChoice(o)))) == Return(v, []);
  }

  lemma SourceReturnsError(w: World, n: nat)
    requires n > 0
    ensures Pipeline.Run(w, SOURCE, n, "f", []) == Value(Ast.Plain(Error(0)), [])
  {
    var d := SOURCE.functions[0];
    assert Ast.EvalLast(w, SOURCE, n - 1, [], [], CHOICE.otherwise) == Value(Ast.Plain(Error(0)), []);
    assert Ast.EvalBlock(w, SOURCE, n - 1, [], [], CHOICE.otherwise, 0) == Value(Ast.Plain(Error(0)), []);
    assert Ast.EvalCondition(w, SOURCE, n - 1, [], [], CHOICE.branches[0]) == Value(Ast.Plain(Boolean(false)), []);
    assert Ast.EvalIf(w, SOURCE, n - 1, [], [], CHOICE, 1) == Value(Ast.Plain(Error(0)), []);
    assert Ast.Eval(w, SOURCE, n - 1, [], [], CHOICE) == Value(Ast.Plain(Error(0)), []);
    assert Ast.Eval(w, SOURCE, n - 1, [], [], Ast.Try(CHOICE)) == Return(Ast.Plain(Error(0)), []);
    assert Ast.EvalStatement(w, SOURCE, n - 1, [], [], BODY.statements[0]) == Return(Ast.Plain(Error(0)), []);
    assert Ast.EvalBlock(w, SOURCE, n - 1, [], [], BODY, 0) == Return(Ast.Plain(Error(0)), []);
    assert Ast.BindAll([], [], []) == [];
  }

  /**
   The function is accepted although it is not typed.  Its early return gives back a variant, where
   its callers expect a bare error.
   */
  lemma EarlyReturnIsVariant(w: World, o: Order, n: nat)
    requires IsOrder(o) && n > 0
    ensures AnalysisTheorems.IsSourceProgram(o, AstLowering.LowerProgram(SOURCE))
    ensures Pipeline.Front(o, SOURCE).Some? && !Pipeline.Typed(SOURCE, Pipeline.Front(o, SOURCE).value)
    ensures Pipeline.Run(w, SOURCE, n, "f", []) == Value(Ast.Plain(Error(0)), [])
    ensures var r := Pipeline.RunCompiled(w, Pipeline.Front(o, SOURCE).value, n, "f", []); r.Value? && r.value.Tagged?
  {
    Lowers();
    LoweredIsSource(o);
    ProgramIsAccepted(o);
    Pipeline.FrontIsTyped(o, SOURCE);
    SourceReturnsError(w, n);
    CodeReturnsVariant(w, o, n);
  }

  lemma ReturnEndsCall(w: World, q: Mir.Program, n: nat, body: Mir.Expression, v: Mir.Value)
    requires n > 0
    requires var f := Mir.Closure("", [], body, []);
             Mir.Eval(w, q, n - 1, Mir.BindAll([Mir.Binding("", f)] + [], [], []), [], body) == Return(v, [])
    ensures Mir.Apply(w, q, n, Mir.Closure("", [], body, []), [], []) == Value(v, [])
  {
    hide Mir.Eval;
  }

  lemma FindsCode(p: Hir.Program, d: Hir.Definition)
    requires d.arguments == [] && Hir.FindDefinition(p.functions, d.name) == Some(d)
    ensures Fmm.FindDefinition(Pipeline.CompileProgram(p).functions, d.name) ==
            Some(Fmm.Definition(d.name, [], Fmm.Compile(Lowering.Compile(p, d.body))))
  {
    hide Lowering.Compile, Fmm.Compile;
    LoweringTheorems.FindCompiled(p, p.functions, d.name);
    FmmTheorems.FindLowers(Lowering.CompileProgram(p).functions, d.name);
    assert Lowering.ArgumentNames(d.arguments) == [];
  }

  lemma RunsFound(w: World, p: Hir.Program, n: nat, name: string, body: Fmm.Code)
    requires Fmm.FindDefinition(Pipeline.CompileProgram(p).functions, name) == Some(Fmm.Definition(name, [], body))
    ensures Pipeline.RunCompiled(w, p, n, name, []) == Fmm.Apply(w, Pipeline.CompileProgram(p), n, Fmm.Closure("", [], body, []), [], [])
  {
    hide Fmm.Apply, Pipeline.CompileProgram;
    var none: seq<Base> := [];
    assert seq(|none|, i requires 0 <= i < |none| => Fmm.Plain(none[i])) == [];
  }

  lemma CodeReturnsVariant(w: World, o: Order, n: nat)
    requires n > 0
    ensures var r := Pipeline.RunCompiled(w, Typed(o), n, "f", []); r.Value? && r.value.Tagged?
  {
    var p := Typed(o);
    var d := p.functions[0];
    FindsCode(p, d);
    var body := Lowering.Compile(p, d.body);
    RunsFound(w, p, n, "f", Fmm.Compile(body));
    hide Pipeline.RunCompiled, Mir.Eval, Lowering.Compile, Fmm.Eval, Fmm.Compile, TypedBody;
    AppliesToVariant(w, Lowering.CompileProgram(p), p, o, n);
  }

  lemma AppliesToVariant(w: World, q: Mir.Program, p: Hir.Program, o: Order, n: nat)
    requires n > 0
    ensures var body := Lowering.Compile(p, TypedBody(o));
            var r := Fmm.Apply(w, Fmm.CompileProgram(q), n, Fmm.Closure("", [], Fmm.Compile(body), []), [], []);
            r.Value? && r.value.Tagged?
  {
    var body := Lowering.Compile(p, TypedBody(o));
    var f := Mir.Closure("", [], body, []);
    var v := Mir.Tagged(ERROR_TAG, Mir.Plain(Error(0)));
    BodyReturnsTagged(w, q, p, o, n - 1, Mir.BindAll([Mir.Binding("", f)] + [], [], []));
    hide Mir.Eval, Lowering.Compile, Fmm.Eval, Fmm.Compile, TypedBody;
    ReturnEndsCall(w, q, n, body, v);
    hide Mir.Apply, Fmm.Apply;
    assert Pipeline.MirPlain([]) == [];
    Pipeline.LoweredIsCompiled(w, q, n, [], body, []);
  }
}
