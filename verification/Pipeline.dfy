/** From syntax trees to low-level code: the whole pipeline preserves what programs do. */
module Pipeline {
  import opened Sums
  import opened Semantics
  import Analysis
  import AnalysisTheorems
  import AnalyzedPrograms
  import Ast
  import AstLowering
  import AstTheorems
  import Erasure
  import Fmm
  import FmmTheorems
  import Hir
  import HirTypes
  import Lowering
  import LoweringTheorems
  import Mir
  import Representation
  import Simulation

  /** A typed program is a parsed one, with types inferred and coercions inserted, that is well-typed. */
  ghost predicate Typed(a: Ast.Program, p: Hir.Program) {
    Erasure.EraseProgram(p) == AstLowering.LowerProgram(a) && HirTypes.WellTyped(p)
  }

  function CompileProgram(p: Hir.Program): Fmm.Program {
    Fmm.CompileProgram(Lowering.CompileProgram(p))
  }

  /** Calling a function of a parsed program with plain arguments. */
  function Run(w: World, a: Ast.Program, n: nat, name: string, arguments: seq<Base>): Ast.Result {
    match Ast.FindDefinition(a.functions, name)
    case None => Stuck
    case Some(d) =>
      Ast.Apply(w, a, n, Ast.Closure(d.arguments, d.result, d.body, []),
                seq(|arguments|, i requires 0 <= i < |arguments| => Ast.Plain(arguments[i])), [])
  }

  /** Calling the compiled function. */
  function RunCompiled(w: World, p: Hir.Program, n: nat, name: string, arguments: seq<Base>): Fmm.Result {
    match Fmm.FindDefinition(CompileProgram(p).functions, name)
    case None => Stuck
    case Some(d) =>
      Fmm.Apply(w, CompileProgram(p), n, Fmm.Closure("", d.arguments, d.body, []),
                seq(|arguments|, i requires 0 <= i < |arguments| => Fmm.Plain(arguments[i])), [])
  }

  /** The arguments that a function of plain values takes. */
  predicate Takes(d: Hir.Definition, arguments: seq<Base>) {
    && |arguments| == |d.arguments| && Hir.IsBaseType(d.result)
    && forall i :: 0 <= i < |arguments| ==> Hir.BaseType(arguments[i]) == d.arguments[i].type_
  }

  /** A typed function at the high level, called with plain arguments. */
  function RunTyped(w: World, p: Hir.Program, n: nat, d: Hir.Definition, arguments: seq<Base>): Hir.Result {
    Hir.Apply(w, p, n, Hir.Closure(d.arguments, d.result, d.body, []), HirPlain(arguments), [])
  }

  function HirPlain(arguments: seq<Base>): (r: seq<Hir.Value>)
    ensures |r| == |arguments|
  {
    seq(|arguments|, i requires 0 <= i < |arguments| => Hir.Plain(arguments[i]))
  }

  function MirPlain(arguments: seq<Base>): (r: seq<Mir.Value>)
    ensures |r| == |arguments|
  {
    seq(|arguments|, i requires 0 <= i < |arguments| => Mir.Plain(arguments[i]))
  }

  /** Outcomes with the same effects, whose results are the same plain value. */
  predicate SamePlain(o: Ast.Result, o': Fmm.Result) {
    match o
    case Value(v, trace) => v.Plain? && o' == Value(Fmm.Plain(v.base), trace)
    case Timeout => o' == Timeout
    case _ => false
  }

  /** From the source to the typed program. */
  lemma SourceIsTyped(w: World, a: Ast.Program, p: Hir.Program, n: nat, name: string, arguments: seq<Base>)
    requires Typed(a, p) && Hir.FindDefinition(p.functions, name).Some?
    ensures Ast.FindDefinition(a.functions, name).Some?
    ensures Erasure.Same(
              RunTyped(w, p, n, Hir.FindDefinition(p.functions, name).value, arguments),
              AstTheorems.LowerResult(Run(w, a, n, name, arguments)))
  {
    hide Erasure.Erase, AstLowering.Lower, AstLowering.LowerBlock, Hir.Eval, Ast.Eval;
    var d := Hir.FindDefinition(p.functions, name).value;
    Erasure.FindErased(p.functions, name);
    AstTheorems.FindLowers(a.functions, name);
    var s := Ast.FindDefinition(a.functions, name).value;
    var none: Hir.Environment := [];
    var f, g := Hir.Closure(d.arguments, d.result, d.body, none), Ast.Closure(s.arguments, s.result, s.body, []);
    var vs := seq(|arguments|, i requires 0 <= i < |arguments| => Ast.Plain(arguments[i]));
    assert AstTheorems.LowerValues(vs) == HirPlain(arguments);
    assert AstTheorems.LowerEnvironment([]) == none;
    AstTheorems.LowersApply(w, a, n, g, vs, []);
    assert Erasure.ForgetsAll(none, none);
    assert Erasure.Forgets(f, AstTheorems.LowerValue(g));
    assert Erasure.ForgetsValues(HirPlain(arguments), HirPlain(arguments));
    Erasure.ErasesApply(w, p, n, f, AstTheorems.LowerValue(g), HirPlain(arguments), HirPlain(arguments), []);
  }

  /** From the typed program to the mid level. */
  lemma TypedIsLowered(w: World, p: Hir.Program, n: nat, d: Hir.Definition, arguments: seq<Base>)
    requires HirTypes.WellTyped(p) && d in p.functions && Takes(d, arguments)
    ensures Representation.Agree(
              p, d.result, None, RunTyped(w, p, n, d, arguments),
              Mir.Apply(w, Lowering.CompileProgram(p), n,
                        Mir.Closure("", Lowering.ArgumentNames(d.arguments), Lowering.Compile(p, d.body), []), MirPlain(arguments), []))
  {
    hide Hir.Eval, Mir.Eval, Lowering.Compile, HirTypes.Infer;
    var i :| 0 <= i < |p.functions| && p.functions[i] == d;
    assert HirTypes.WellTypedDefinition(p, p.functions[i]);
    LoweringTheorems.FunctionRepresents(p, d);
    var ts := Hir.ArgumentTypes(d.arguments);
    forall i | 0 <= i < |arguments| ensures Representation.Represents(p, ts[i], HirPlain(arguments)[i], MirPlain(arguments)[i]) {
      LoweringTheorems.PlainRepresents(p, arguments[i]);
    }
    hide Representation.Represents, HirTypes.WellTyped;
    Simulation.SimulatesApply(
      w, p, n, Hir.Closure(d.arguments, d.result, d.body, []),
      Mir.Closure("", Lowering.ArgumentNames(d.arguments), Lowering.Compile(p, d.body), []),
      ts, d.result, HirPlain(arguments), MirPlain(arguments), []);
  }

  /** From the mid level to code. */
  lemma LoweredIsCompiled(w: World, q: Mir.Program, n: nat, names: seq<string>, body: Mir.Expression, arguments: seq<Base>)
    requires Mir.Apply(w, q, n, Mir.Closure("", names, body, []), MirPlain(arguments), []) != Stuck
    ensures Fmm.Apply(w, Fmm.CompileProgram(q), n, Fmm.Closure("", names, Fmm.Compile(body), []),
                      seq(|arguments|, i requires 0 <= i < |arguments| => Fmm.Plain(arguments[i])), [])
         == FmmTheorems.LowerResult(Mir.Apply(w, q, n, Mir.Closure("", names, body, []), MirPlain(arguments), []))
  {
    hide Fmm.Eval, Mir.Eval, Fmm.Compile;
    var m := Mir.Closure("", names, body, []);
    FmmTheorems.LowersApply(w, q, n, m, MirPlain(arguments), []);
    assert FmmTheorems.LowerEnvironment([]) == [];
    assert FmmTheorems.LowerValue(m) == Fmm.Closure("", names, Fmm.Compile(body), []);
    assert FmmTheorems.LowerValues(MirPlain(arguments))
        == seq(|arguments|, i requires 0 <= i < |arguments| => Fmm.Plain(arguments[i]));
  }

  /**
   End to end: a function that takes and returns plain values does the same when it is evaluated
   statement by statement on its syntax tree and when its compiled code is run, for every world and
   every number of nested calls.  It has the same effects in the same order, it skips the same
   statements after early returns, and it never gets stuck.
   */
  lemma EndToEnd(w: World, a: Ast.Program, p: Hir.Program, n: nat, name: string, arguments: seq<Base>)
    requires Typed(a, p) && Hir.FindDefinition(p.functions, name).Some?
    requires Takes(Hir.FindDefinition(p.functions, name).value, arguments)
    ensures SamePlain(Run(w, a, n, name, arguments), RunCompiled(w, p, n, name, arguments))
  {
    hide Hir.Eval, Mir.Eval, Fmm.Eval, Ast.Eval, Lowering.Compile, Fmm.Compile, HirTypes.Infer;
    var d := Hir.FindDefinition(p.functions, name).value;
    var q := Lowering.CompileProgram(p);
    LoweringTheorems.FindCompiled(p, p.functions, name);
    FmmTheorems.FindLowers(q.functions, name);
    SourceIsTyped(w, a, p, n, name, arguments);
    TypedIsLowered(w, p, n, d, arguments);
    LoweredIsCompiled(w, q, n, Lowering.ArgumentNames(d.arguments), Lowering.Compile(p, d.body), arguments);
    var o := RunTyped(w, p, n, d, arguments);
    var m := Mir.Apply(w, q, n, Mir.Closure("", Lowering.ArgumentNames(d.arguments), Lowering.Compile(p, d.body), []), MirPlain(arguments), []);
    if o.Value? {
      LoweringTheorems.BaseForm(p, d.result, o.value, m.value);
    }
  }

  // ----- From sources -----

  /** The compiler down to the typed program: nothing if the program is rejected. */
  function Front(o: Analysis.Order, a: Ast.Program): Option<Hir.Program> {
    Analysis.Analyze(o, AstLowering.LowerProgram(a))
  }

  /** A parsed program whose types are resolved, and in which no function that returns nothing but errors passes errors on. */
  ghost predicate IsCompilable(o: Analysis.Order, a: Ast.Program) {
    AnalysisTheorems.IsSourceProgram(o, AstLowering.LowerProgram(a)) && AnalyzedPrograms.AvoidsBareErrors(AstLowering.LowerProgram(a))
  }

  /** Analysis yields typed programs, so that nothing has to be assumed about them. */
  lemma FrontIsTyped(o: Analysis.Order, a: Ast.Program)
    requires Analysis.IsOrder(o) && AnalysisTheorems.IsSourceProgram(o, AstLowering.LowerProgram(a)) && Front(o, a).Some?
    ensures Typed(a, Front(o, a).value) <==> AnalyzedPrograms.AvoidsBareErrors(AstLowering.LowerProgram(a))
  {
    AnalyzedPrograms.AnalyzedIsTyped(o, AstLowering.LowerProgram(a));
  }

  /**
   The whole compiler: whatever it accepts does the same as compiled code as on its syntax tree.
   This is `EndToEnd` for the program that inference, checking and insertion of coercions yield.
   */
  lemma AcceptedRuns(w: World, o: Analysis.Order, a: Ast.Program, n: nat, name: string, arguments: seq<Base>)
    requires Analysis.IsOrder(o) && IsCompilable(o, a) && Front(o, a).Some?
    requires var d := Hir.FindDefinition(AstLowering.LowerProgram(a).functions, name); d.Some? && Takes(d.value, arguments)
    ensures SamePlain(Run(w, a, n, name, arguments), RunCompiled(w, Front(o, a).value, n, name, arguments))
  {
    hide Typed, Analysis.AnalyzeDefinitions, AstLowering.LowerProgram, Run, RunCompiled, AnalysisTheorems.IsSourceProgram, Analysis.IsOrder;
    FrontIsTyped(o, a);
    AnalyzedPrograms.FindAnalyzed(o, AstLowering.LowerProgram(a), AstLowering.LowerProgram(a).functions, name);
    EndToEnd(w, a, Front(o, a).value, n, name, arguments);
  }
}
