/** Which programs are typed after analysis: those that are accepted, and pass errors on as variants. */
module AnalyzedPrograms {
  import opened Sums
  import opened Semantics
  import opened Hir
  import opened HirTypes
  import opened Analysis
  import opened AnalysisTheorems
  import opened AnalysisErasure
  import Erasure

  // ----- Early returns -----

  /** The result type of a function is not exactly the type of errors. */
  predicate IsNotBareError(result: Type) {
    !result.ErrorType?
  }

  /** If functions satisfy two conditions on early returns, they satisfy what follows from both. */
  lemma {:induction false} ReturnsBoth(a: Type -> bool, b: Type -> bool, c: Type -> bool, result: Type, e: Expression)
    requires forall t :: a(t) && b(t) ==> c(t)
    requires TriesReturn(a, result, e) && TriesReturn(b, result, e)
    ensures TriesReturn(c, result, e)
    decreases e, 1
  {
    if e.If? || e.Let? || e.Lambda? {
      ReturnsBothControl(a, b, c, result, e);
    } else if e.Call? || e.IfType? {
      ReturnsBothMany(a, b, c, result, e);
    } else if e.Construct? || e.Update? {
      ReturnsBothRecord(a, b, c, result, e);
    } else if e.Not? || e.Try? || e.Select? || e.Coerce? {
      ReturnsBoth(a, b, c, result, e.argument);
    } else if e.And? || e.Or? || e.Numeric? || e.NotEqual? {
      ReturnsBoth(a, b, c, result, e.left);
      ReturnsBoth(a, b, c, result, e.right);
    }
  }

  lemma {:induction false} ReturnsBothControl(a: Type -> bool, b: Type -> bool, c: Type -> bool, result: Type, e: Expression)
    requires (e.If? || e.Let? || e.Lambda?) && forall t :: a(t) && b(t) ==> c(t)
    requires TriesReturn(a, result, e) && TriesReturn(b, result, e)
    ensures TriesReturn(c, result, e)
    decreases e, 0
  {
    match e
    case If(condition, consequence, alternative) =>
      ReturnsBoth(a, b, c, result, condition);
      ReturnsBoth(a, b, c, result, consequence);
      ReturnsBoth(a, b, c, result, alternative);
    case Let(_, _, bound, body) =>
      ReturnsBoth(a, b, c, result, bound);
      ReturnsBoth(a, b, c, result, body);
    case Lambda(_, ownResult, body) => ReturnsBoth(a, b, c, ownResult, body);
  }

  lemma {:induction false} ReturnsBothMany(a: Type -> bool, b: Type -> bool, c: Type -> bool, result: Type, e: Expression)
    requires (e.Call? || e.IfType?) && forall t :: a(t) && b(t) ==> c(t)
    requires TriesReturn(a, result, e) && TriesReturn(b, result, e)
    ensures TriesReturn(c, result, e)
    decreases e, 0
  {
    if e.Call? {
      ReturnsBoth(a, b, c, result, e.callee);
      forall i | 0 <= i < |e.operands| ensures TriesReturn(c, result, e.operands[i]) {
        ReturnsBoth(a, b, c, result, e.operands[i]);
      }
    } else {
      ReturnsBoth(a, b, c, result, e.argument);
      forall i | 0 <= i < |e.branches| ensures BranchReturns(c, result, e.branches[i]) {
        ReturnsBothBranch(a, b, c, result, e.branches[i]);
      }
      if e.otherwise.Some? {
        ReturnsBothBranch(a, b, c, result, e.otherwise.value);
      }
    }
  }

  lemma {:induction false} ReturnsBothBranch(a: Type -> bool, b: Type -> bool, c: Type -> bool, result: Type, branch: Branch)
    requires forall t :: a(t) && b(t) ==> c(t)
    requires BranchReturns(a, result, branch) && BranchReturns(b, result, branch)
    ensures BranchReturns(c, result, branch)
    decreases branch, 0
  {
    match branch
    case Branch(_, body) => ReturnsBoth(a, b, c, result, body);
  }

  lemma {:induction false} ReturnsBothRecord(a: Type -> bool, b: Type -> bool, c: Type -> bool, result: Type, e: Expression)
    requires (e.Construct? || e.Update?) && forall t :: a(t) && b(t) ==> c(t)
    requires TriesReturn(a, result, e) && TriesReturn(b, result, e)
    ensures TriesReturn(c, result, e)
    decreases e, 0
  {
    if e.Update? {
      ReturnsBoth(a, b, c, result, e.argument);
    }
    forall i | 0 <= i < |e.fields| ensures FieldReturns(c, result, e.fields[i]) {
      ReturnsBothField(a, b, c, result, e.fields[i]);
    }
  }

  lemma {:induction false} ReturnsBothField(a: Type -> bool, b: Type -> bool, c: Type -> bool, result: Type, field: Field)
    requires forall t :: a(t) && b(t) ==> c(t)
    requires FieldReturns(a, result, field) && FieldReturns(b, result, field)
    ensures FieldReturns(c, result, field)
    decreases field, 0
  {
    match field
    case Field(_, expression) => ReturnsBoth(a, b, c, result, expression);
  }

  /** Functions that can return errors return variants, unless they return nothing but errors. */
  lemma PassesUnlessBare(t: Type)
    ensures PassesErrors(t) && IsNotBareError(t) ==> PassesVariants(t)
    ensures PassesVariants(t) ==> PassesErrors(t) && IsNotBareError(t)
  {
  }

  // ----- Definitions -----

  lemma {:induction false} FindAnalyzed(o: Order, p: Program, ds: seq<Definition>, name: string)
    requires AnalyzeDefinitions(o, p, ds).Some?
    ensures SameSignature(FindDefinition(ds, name), FindDefinition(AnalyzeDefinitions(o, p, ds).value, name))
  {
    hide InferTypes, Check, CoerceTypes, TriesReturn;
    if ds != [] {
      FindAnalyzed(o, p, ds[1..], name);
      assert AnalyzeDefinitions(o, p, ds).value[1..] == AnalyzeDefinitions(o, p, ds[1..]).value;
    }
  }

  lemma {:induction false} AnalyzedAt(o: Order, p: Program, ds: seq<Definition>, i: nat)
    requires AnalyzeDefinitions(o, p, ds).Some? && i < |ds|
    ensures AnalyzeDefinition(o, p, ds[i]) == Some(AnalyzeDefinitions(o, p, ds).value[i])
  {
    hide AnalyzeDefinition;
    if i > 0 {
      AnalyzedAt(o, p, ds[1..], i - 1);
    }
  }

  /** An analyzed body erases to the source. */
  lemma BodyErases(o: Order, q: Program, d: Definition)
    requires IsSourceDefinition(o, d) && AnalyzeDefinition(o, q, d).Some?
    ensures Erasure.Erase(AnalyzeDefinition(o, q, d).value.body) == d.body
  {
    hide InferTypes, Check, CoerceTypes, TriesReturn, Extract, IsSource, CoerceTo, Erasure.Erase, IsSubsumed;
    var ctx := BindTypes([], d.arguments);
    var body := InferTypes(o, q, ctx, d.body).value;
    InferErases(o, q, ctx, d.body);
    CoerceToErases(o, q, ctx, CoerceTypes(o, q, ctx, body), d.result);
    CoerceErases(o, q, ctx, body);
  }

  /** The body of a function that passes errors on as variants is typed. */
  lemma BodyIsTyped(o: Order, q: Program, p: Program, d: Definition)
    requires IsOrder(o) && CanonicalProgram(o, q) && SameSignatures(q, p)
    requires IsSourceDefinition(o, d) && CanonicalDefinition(o, d) && AnalyzeDefinition(o, q, d).Some?
    requires TriesReturn(IsNotBareError, d.result, d.body)
    ensures Infer(p, BindTypes([], d.arguments), Some(d.result), AnalyzeDefinition(o, q, d).value.body) == Some(d.result)
  {
    hide CoerceDefinition, Infer, Check, Extract;
    BodyIsCoerced(o, q, p, d);
  }

  lemma BodyIsCoerced(o: Order, q: Program, p: Program, d: Definition)
    requires IsOrder(o) && CanonicalProgram(o, q) && SameSignatures(q, p)
    requires IsSourceDefinition(o, d) && CanonicalDefinition(o, d) && CoerceDefinition(o, q, d).Some?
    requires TriesReturn(IsNotBareError, d.result, d.body)
    ensures Coerced(o, q, p, BindTypes([], d.arguments), d.result, Some(CoerceDefinition(o, q, d).value.body), d.result)
  {
    hide InferTypes, Check, CoerceTypes, TriesReturn, Extract, IsSource, CoerceTo, Annotated, Infer, CanonicalProgram, IsOrder,
         SameSignatures, Canonical, IsSubsumed, Erasure.Erase;
    var ctx := BindTypes([], d.arguments);
    var body := InferTypes(o, q, ctx, d.body).value;
    BindIsCanonical(o, [], d.arguments);
    InferAnnotates(o, q, ctx, d.body);
    InferErases(o, q, ctx, d.body);
    ReturnsErased(IsNotBareError, d.result, body);
    forall t ensures PassesErrors(t) && IsNotBareError(t) ==> PassesVariants(t) {
      PassesUnlessBare(t);
    }
    ReturnsBoth(PassesErrors, IsNotBareError, PassesVariants, d.result, body);
    var t := Check(o, q, ctx, body).value;
    ChecksCanonical(o, q, ctx, body);
    Coerces(o, q, p, ctx, d.result, body, t);
    CoercesTo(o, q, p, ctx, d.result, CoerceTypes(o, q, ctx, body), t, d.result);
  }

  /** The second check accepts whatever coercions have been inserted into. */
  lemma SecondCheckPasses(o: Order, q: Program, d: Definition)
    requires IsOrder(o) && CanonicalProgram(o, q) && IsSourceDefinition(o, d) && CanonicalDefinition(o, d)
    requires CoerceDefinition(o, q, d).Some? && TriesReturn(IsNotBareError, d.result, d.body)
    ensures AnalyzeDefinition(o, q, d) == CoerceDefinition(o, q, d)
  {
    hide InferTypes, Check, CoerceTypes, TriesReturn, Extract, IsSource, CoerceTo, Annotated, Infer, CanonicalProgram, IsOrder,
         Canonical, Erasure.Erase;
    assert SameSignatures(q, q);
    BodyIsCoerced(o, q, q, d);
  }

  /** A typed body passes errors on as variants. */
  lemma TypedBodyReturns(o: Order, q: Program, p: Program, d: Definition)
    requires IsSourceDefinition(o, d) && AnalyzeDefinition(o, q, d).Some?
    requires Infer(p, BindTypes([], d.arguments), Some(d.result), AnalyzeDefinition(o, q, d).value.body).Some?
    ensures TriesReturn(IsNotBareError, d.result, d.body)
  {
    hide TriesReturn, IsSource, Infer, Erasure.Erase, AnalyzeDefinition;
    var body := AnalyzeDefinition(o, q, d).value.body;
    BodyErases(o, q, d);
    TypedReturns(p, BindTypes([], d.arguments), d.result, body);
    forall t ensures PassesVariants(t) ==> IsNotBareError(t) {
      PassesUnlessBare(t);
    }
    ReturnsBoth(PassesVariants, PassesVariants, IsNotBareError, d.result, body);
    ReturnsErased(IsNotBareError, d.result, body);
  }

  // ----- Programs -----

  /** No function that returns nothing but errors passes errors on with `?`. */
  predicate AvoidsBareErrors(q: Program) {
    forall i :: 0 <= i < |q.functions| ==> TriesReturn(IsNotBareError, q.functions[i].result, q.functions[i].body)
  }

  lemma {:induction false} DefinitionsErase(o: Order, q: Program, ds: seq<Definition>)
    requires AnalyzeDefinitions(o, q, ds).Some? && forall i :: 0 <= i < |ds| ==> IsSourceDefinition(o, ds[i])
    ensures Erasure.EraseDefinitions(AnalyzeDefinitions(o, q, ds).value) == ds
  {
    hide IsSourceDefinition, Erasure.Erase;
    if ds != [] {
      BodyErases(o, q, ds[0]);
      DefinitionsErase(o, q, ds[1..]);
      var r := AnalyzeDefinitions(o, q, ds).value;
      assert r[1..] == AnalyzeDefinitions(o, q, ds[1..]).value && ds == [ds[0]] + ds[1..];
      assert r[0] == AnalyzeDefinition(o, q, ds[0]).value;
    }
  }

  /**
   An accepted program is typed after analysis exactly if no function that returns nothing but errors
   passes errors on.  Analysis only adds types and coercions.
   */
  lemma AnalyzedIsTyped(o: Order, q: Program)
    requires IsOrder(o) && IsSourceProgram(o, q) && Analyze(o, q).Some?
    ensures Erasure.EraseProgram(Analyze(o, q).value) == q
    ensures WellTyped(Analyze(o, q).value) <==> AvoidsBareErrors(q)
  {
    hide IsSourceDefinition, AnalyzeDefinition, AnalyzeDefinitions, TriesReturn, Infer, IsOrder, CanonicalProgram;
    var p := Analyze(o, q).value;
    DefinitionsErase(o, q, q.functions);
    forall name ensures SameSignature(FindDefinition(q.functions, name), FindDefinition(p.functions, name)) {
      FindAnalyzed(o, q, q.functions, name);
    }
    assert SameSignatures(q, p);
    forall i | 0 <= i < |q.functions|
      ensures WellTypedDefinition(p, p.functions[i]) <==> TriesReturn(IsNotBareError, q.functions[i].result, q.functions[i].body)
    {
      DefinitionIsTyped(o, q, p, i);
    }
    hide WellTypedDefinition, Erasure.EraseDefinitions;
  }

  lemma DefinitionIsTyped(o: Order, q: Program, p: Program, i: nat)
    requires IsOrder(o) && IsSourceProgram(o, q) && Analyze(o, q) == Some(p) && SameSignatures(q, p) && i < |q.functions|
    ensures WellTypedDefinition(p, p.functions[i]) <==> TriesReturn(IsNotBareError, q.functions[i].result, q.functions[i].body)
  {
    var d := q.functions[i];
    AnalyzedAt(o, q, q.functions, i);
    assert IsSourceDefinition(o, d) && CanonicalDefinition(o, d);
    Signature(o, q, d);
    hide AnalyzeDefinition, AnalyzeDefinitions, TriesReturn, Infer, IsSource, IsOrder, SameSignatures, Canonical;
    if TriesReturn(IsNotBareError, d.result, d.body) {
      BodyIsTyped(o, q, p, d);
    }
    if WellTypedDefinition(p, p.functions[i]) {
      TypedBodyReturns(o, q, p, d);
    }
  }

  lemma Signature(o: Order, q: Program, d: Definition)
    requires AnalyzeDefinition(o, q, d).Some?
    ensures var d' := AnalyzeDefinition(o, q, d).value; d'.name == d.name && d'.arguments == d.arguments && d'.result == d.result
  {
  }
}
