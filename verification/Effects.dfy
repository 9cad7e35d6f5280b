/** A program with effects, which early returns cut short, from its syntax tree to its code. */
module Effects {
  import opened Sums
  import opened Semantics
  import Ast
  import AstLowering
  import Erasure
  import Fmm
  import Hir
  import HirTypes
  import Pipeline

  const WRITE: string := "write"
  const HELPER: string := "helper"
  const MAIN: string := "main"
  const FALLIBLE: Hir.Type := Hir.UnionType([Hir.NoneType, Hir.ErrorType])

  // ----- The source -----

  function Write(number: int): Ast.Expression {
    Ast.Call(Ast.Variable(WRITE), [Ast.Literal(Number(number))])
  }

  const NOTHING: Ast.Block := Ast.Block([], Ast.Literal(None_))

  /** Writes 1, fails, and would write 2. */
  const HELPER_BODY: Ast.Block :=
    Ast.Block([Ast.Statement(None, Write(1)), Ast.Statement(None, Ast.Try(Ast.Literal(Error(0)))), Ast.Statement(None, Write(2))],
              Ast.Literal(None_))

  const HANDLE: Ast.Expression :=
    Ast.IfType("x", Ast.Call(Ast.Variable(HELPER), []),
               [Ast.TypeBranch(Hir.NoneType, NOTHING), Ast.TypeBranch(Hir.ErrorType, NOTHING)], None)

  /** Calls the helper, ignores what it returns, and writes 3. */
  const MAIN_BODY: Ast.Block :=
    Ast.Block([Ast.Statement(None, HANDLE), Ast.Statement(None, Write(3))], Ast.Literal(None_))

  const HELPER_SOURCE: Ast.Definition := Ast.Definition(HELPER, [], FALLIBLE, HELPER_BODY)
  const MAIN_SOURCE: Ast.Definition := Ast.Definition(MAIN, [], Hir.NoneType, MAIN_BODY)

  const SOURCE: Ast.Program :=
    Ast.Program([], [Ast.ForeignImport(WRITE, [Hir.NumberType], Hir.NoneType)], [HELPER_SOURCE, MAIN_SOURCE])

  // ----- The typed program -----

  function TypedWrite(number: int): Hir.Expression {
    Hir.Call(Hir.Variable(WRITE), [Hir.Constant(Number(number))])
  }

  const TYPED_TRY: Hir.Expression :=
    Hir.Try(Some(Hir.NoneType), Hir.Coerce(Hir.ErrorType, FALLIBLE, Hir.Constant(Error(0))))

  function Then(bound: Hir.Expression, body: Hir.Expression): Hir.Expression {
    Hir.Let(None, Some(Hir.NoneType), bound, body)
  }

  const TYPED_HELPER: Hir.Expression :=
    Then(TypedWrite(1), Then(TYPED_TRY, Then(TypedWrite(2), Hir.Coerce(Hir.NoneType, FALLIBLE, Hir.Constant(None_)))))

  const TYPED_BRANCHES: seq<Hir.Branch> :=
    [Hir.Branch(Some(Hir.NoneType), Hir.Constant(None_)), Hir.Branch(Some(Hir.ErrorType), Hir.Constant(None_))]

  const TYPED_HANDLE: Hir.Expression := Hir.IfType("x", Hir.Call(Hir.Variable(HELPER), []), TYPED_BRANCHES, None)
  const TYPED_MAIN: Hir.Expression := Then(TYPED_HANDLE, Then(TypedWrite(3), Hir.Constant(None_)))

  const HELPER_TYPED: Hir.Definition := Hir.Definition(HELPER, [], FALLIBLE, TYPED_HELPER)
  const MAIN_TYPED: Hir.Definition := Hir.Definition(MAIN, [], Hir.NoneType, TYPED_MAIN)

  const TYPED: Hir.Program :=
    Hir.Program([], [Hir.ForeignDeclaration(WRITE, WRITE, [Hir.NumberType], Hir.NoneType)], [HELPER_TYPED, MAIN_TYPED])

  // ----- What the source does -----

  function Written(number: int): Event {
    Event(WRITE, [Number(number)], None_)
  }

  lemma Finds()
    ensures Ast.FindDefinition(SOURCE.functions, HELPER) == Some(HELPER_SOURCE)
    ensures Ast.FindDefinition(SOURCE.functions, MAIN) == Some(MAIN_SOURCE)
    ensures Ast.FindDefinition(SOURCE.functions, WRITE) == None
    ensures Ast.FindImport(SOURCE.imports, WRITE) == Some(SOURCE.imports[0])
  {
    assert SOURCE.functions[1..] == [MAIN_SOURCE];
    assert SOURCE.functions[1..][1..] == [];
    var none: seq<Ast.Definition> := [];
    assert Ast.FindDefinition(none, WRITE) == None;
    assert [MAIN_SOURCE][1..] == none && Ast.FindDefinition([MAIN_SOURCE], WRITE) == None;
    assert HELPER[0] != MAIN[0] && HELPER[0] != WRITE[0] && MAIN[0] != WRITE[0];
  }

  lemma Writes(w: World, n: nat, trace: Trace, number: int)
    ensures Ast.Eval(w, SOURCE, n, [], trace, Write(number)) == Value(Ast.Plain(None_), trace + [Written(number)])
  {
    Finds();
    var f := Ast.Foreign(WRITE, [Hir.NumberType], Hir.NoneType);
    var operands := [Ast.Literal(Number(number))];
    assert Ast.Eval(w, SOURCE, n, [], trace, Ast.Variable(WRITE)) == Value(f, trace);
    assert operands[1..] == [];
    assert Ast.Eval(w, SOURCE, n, [], trace, operands[0]) == Value(Ast.Plain(Number(number)), trace);
    assert Ast.EvalAll(w, SOURCE, n, [], trace, operands[1..]) == Value([], trace);
    assert [Ast.Plain(Number(number))] + [] == [Ast.Plain(Number(number))];
    assert Ast.EvalAll(w, SOURCE, n, [], trace, operands) == Value([Ast.Plain(Number(number))], trace);
    assert Ast.Bases([Ast.Plain(Number(number))]) == [Number(number)];
    var response := Hir.Respond(w, WRITE, [Number(number)], trace, Hir.NoneType);
    assert Hir.BaseType(response) == Hir.NoneType;
  }

  lemma HelperFails(w: World, n: nat)
    ensures Ast.EvalBlock(w, SOURCE, n, [], [], HELPER_BODY, 0) == Return(Ast.Plain(Error(0)), [Written(1)])
  {
    Writes(w, n, [], 1);
    var s := HELPER_BODY.statements;
    assert Ast.EvalStatement(w, SOURCE, n, [], [], s[0]) == Value(Ast.Plain(None_), [Written(1)]);
    assert Ast.Eval(w, SOURCE, n, [], [Written(1)], Ast.Literal(Error(0))) == Value(Ast.Plain(Error(0)), [Written(1)]);
    assert Ast.EvalStatement(w, SOURCE, n, [], [Written(1)], s[1]) == Return(Ast.Plain(Error(0)), [Written(1)]);
    assert Ast.EvalBlock(w, SOURCE, n, [], [Written(1)], HELPER_BODY, 1) == Return(Ast.Plain(Error(0)), [Written(1)]);
  }

  lemma Handles(w: World, n: nat)
    requires n > 0
    ensures Ast.Eval(w, SOURCE, n, [], [], HANDLE) == Value(Ast.Plain(None_), [Written(1)])
  {
    Finds();
    HelperFails(w, n - 1);
    var f := Ast.Closure([], FALLIBLE, HELPER_BODY, []);
    assert Ast.Eval(w, SOURCE, n, [], [], Ast.Variable(HELPER)) == Value(f, []);
    assert Ast.EvalAll(w, SOURCE, n, [], [], []) == Value([], []);
    assert Ast.Apply(w, SOURCE, n, f, [], []) == Value(Ast.Plain(Error(0)), [Written(1)]);
    assert Ast.Eval(w, SOURCE, n, [], [], HANDLE.argument) == Value(Ast.Plain(Error(0)), [Written(1)]);
    var branches := HANDLE.typeBranches;
    assert branches[1..][0] == branches[1];
    assert Ast.SelectBranch(branches, Hir.ErrorType) == 1;
    var env := [Ast.Binding("x", Some(Hir.ErrorType), Ast.Plain(Error(0)))];
    assert Ast.Eval(w, SOURCE, n, env + [], [Written(1)], Ast.Literal(None_)) == Value(Ast.Plain(None_), [Written(1)]);
    assert Ast.EvalLast(w, SOURCE, n, env + [], [Written(1)], NOTHING) == Value(Ast.Plain(None_), [Written(1)]);
    assert Ast.EvalBlock(w, SOURCE, n, env + [], [Written(1)], NOTHING, 0) == Value(Ast.Plain(None_), [Written(1)]);
  }

  /** The source writes 1 and 3 but not 2, which follows the early return. */
  lemma SourceWrites(w: World, n: nat)
    requires n > 1
    ensures Pipeline.Run(w, SOURCE, n, MAIN, []) == Value(Ast.Plain(None_), [Written(1), Written(3)])
  {
    Finds();
    Handles(w, n - 1);
    Writes(w, n - 1, [Written(1)], 3);
    assert [Written(1)] + [Written(3)] == [Written(1), Written(3)];
    var s := MAIN_BODY.statements;
    assert Ast.EvalStatement(w, SOURCE, n - 1, [], [], s[0]) == Value(Ast.Plain(None_), [Written(1)]);
    assert Ast.EvalStatement(w, SOURCE, n - 1, [], [Written(1)], s[1]) == Value(Ast.Plain(None_), [Written(1), Written(3)]);
    var trace := [Written(1), Written(3)];
    assert Ast.Eval(w, SOURCE, n - 1, [], trace, Ast.Literal(None_)) == Value(Ast.Plain(None_), trace);
    assert Ast.EvalLast(w, SOURCE, n - 1, [], trace, MAIN_BODY) == Value(Ast.Plain(None_), trace);
    assert Ast.EvalBlock(w, SOURCE, n - 1, [], [Written(1), Written(3)], MAIN_BODY, 2) == Value(Ast.Plain(None_), [Written(1), Written(3)]);
    assert Ast.EvalBlock(w, SOURCE, n - 1, [], [Written(1)], MAIN_BODY, 1) == Value(Ast.Plain(None_), [Written(1), Written(3)]);
    assert Ast.EvalBlock(w, SOURCE, n - 1, [], [], MAIN_BODY, 0) == Value(Ast.Plain(None_), trace);
    hide Ast.EvalBlock, Ast.Eval;
    var arguments: seq<Base> := [];
    var values := seq(|arguments|, i requires 0 <= i < |arguments| => Ast.Plain(arguments[i]));
    assert values == [];
    assert Ast.Apply(w, SOURCE, n, Ast.Closure([], Hir.NoneType, MAIN_BODY, []), [], []) == Value(Ast.Plain(None_), trace);
  }

  // ----- The typed program is one -----

  lemma FindsTyped()
    ensures Hir.FindDefinition(TYPED.functions, HELPER) == Some(HELPER_TYPED)
    ensures Hir.FindDefinition(TYPED.functions, MAIN) == Some(MAIN_TYPED)
    ensures Hir.FindDefinition(TYPED.functions, WRITE) == None
    ensures Hir.FindForeign(TYPED.foreigns, WRITE) == Some(TYPED.foreigns[0])
    ensures IsUserName(WRITE) && IsUserName(HELPER) && IsUserName(MAIN) && IsUserName("x")
  {
    var none: seq<Hir.Definition> := [];
    assert TYPED.functions[1..] == [MAIN_TYPED] && [MAIN_TYPED][1..] == none;
    assert Hir.FindDefinition(none, WRITE) == None;
    assert Hir.FindDefinition([MAIN_TYPED], WRITE) == None;
    assert HELPER[0] != MAIN[0] && HELPER[0] != WRITE[0] && MAIN[0] != WRITE[0];
  }

  lemma WriteTyped(ret: Option<Hir.Type>, number: int)
    ensures HirTypes.Infer(TYPED, [], ret, TypedWrite(number)) == Some(Hir.NoneType)
  {
    FindsTyped();
    var operands := [Hir.Constant(Number(number))];
    assert HirTypes.Infer(TYPED, [], ret, Hir.Variable(WRITE)) == Some(Hir.FunctionType([Hir.NumberType], Hir.NoneType));
    assert operands[1..] == [] && HirTypes.InferAll(TYPED, [], ret, operands[1..]) == Some([]);
    assert HirTypes.Infer(TYPED, [], ret, operands[0]) == Some(Hir.NumberType);
    assert [Hir.NumberType] + [] == [Hir.NumberType];
    assert HirTypes.InferAll(TYPED, [], ret, operands) == Some([Hir.NumberType]);
  }

  lemma ThenTyped(ret: Option<Hir.Type>, bound: Hir.Expression, body: Hir.Expression, t: Hir.Type)
    requires HirTypes.Infer(TYPED, [], ret, bound) == Some(Hir.NoneType) && HirTypes.Infer(TYPED, [], ret, body) == Some(t)
    ensures HirTypes.Infer(TYPED, [], ret, Then(bound, body)) == Some(t)
  {
  }

  lemma ConstantTyped(ret: Option<Hir.Type>, base: Base)
    ensures HirTypes.Infer(TYPED, [], ret, Hir.Constant(base)) == Some(Hir.BaseType(base))
  {
  }

  lemma CoerceTyped(ret: Option<Hir.Type>, base: Base)
    requires base.None_? || base.Error?
    ensures HirTypes.Infer(TYPED, [], ret, Hir.Coerce(Hir.BaseType(base), FALLIBLE, Hir.Constant(base))) == Some(FALLIBLE)
  {
    ConstantTyped(ret, base);
    assert FALLIBLE.members[0] == Hir.NoneType && FALLIBLE.members[1] == Hir.ErrorType;
    assert HirTypes.CanCoerce(Hir.BaseType(base), FALLIBLE);
    hide HirTypes.CanCoerce;
  }

  lemma TryTyped()
    ensures HirTypes.Infer(TYPED, [], Some(FALLIBLE), TYPED_TRY) == Some(Hir.NoneType)
  {
    CoerceTyped(Some(FALLIBLE), Error(0));
    assert FALLIBLE.members[0] == Hir.NoneType && FALLIBLE.members[1] == Hir.ErrorType;
    assert HirTypes.CanFail(Some(FALLIBLE));
    assert HirTypes.IsTestable(Hir.NoneType);
    hide HirTypes.CanFail, HirTypes.IsTestable, HirTypes.CanCoerce;
  }

  lemma HelperTyped()
    ensures HirTypes.Infer(TYPED, [], Some(FALLIBLE), TYPED_HELPER) == Some(FALLIBLE)
  {
    var ret := Some(FALLIBLE);
    WriteTyped(ret, 1);
    WriteTyped(ret, 2);
    CoerceTyped(ret, None_);
    TryTyped();
    hide HirTypes.Infer;
    var end := Hir.Coerce(Hir.NoneType, FALLIBLE, Hir.Constant(None_));
    ThenTyped(ret, TypedWrite(2), end, FALLIBLE);
    ThenTyped(ret, TYPED_TRY, Then(TypedWrite(2), end), FALLIBLE);
    ThenTyped(ret, TypedWrite(1), Then(TYPED_TRY, Then(TypedWrite(2), end)), FALLIBLE);
  }

  lemma MainTyped()
    ensures HirTypes.Infer(TYPED, [], Some(Hir.NoneType), TYPED_MAIN) == Some(Hir.NoneType)
  {
    FindsTyped();
    var ret := Some(Hir.NoneType);
    WriteTyped(ret, 3);
    assert HirTypes.Infer(TYPED, [], ret, Hir.Constant(None_)) == Some(Hir.NoneType);
    ThenTyped(ret, TypedWrite(3), Hir.Constant(None_), Hir.NoneType);
    assert HirTypes.Infer(TYPED, [], ret, Hir.Variable(HELPER)) == Some(Hir.FunctionType([], FALLIBLE));
    assert HirTypes.InferAll(TYPED, [], ret, []) == Some([]);
    assert HirTypes.Infer(TYPED, [], ret, TYPED_HANDLE.argument) == Some(FALLIBLE);
    BranchesTyped(ret);
    assert HirTypes.Infer(TYPED, [], ret, TYPED_HANDLE) == Some(Hir.NoneType);
    ThenTyped(ret, TYPED_HANDLE, Then(TypedWrite(3), Hir.Constant(None_)), Hir.NoneType);
  }

  lemma BranchesTyped(ret: Option<Hir.Type>)
    ensures HirTypes.InferBranches(TYPED, [], ret, "x", TYPED_BRANCHES) == Some([Hir.NoneType, Hir.NoneType])
    ensures HirTypes.Covers(FALLIBLE, TYPED_BRANCHES, None)
  {
    var bs := TYPED_BRANCHES;
    var none: seq<Hir.Branch> := [];
    assert bs[1..] == [bs[1]] && [bs[1]][1..] == none;
    assert HirTypes.InferBranches(TYPED, [], ret, "x", none) == Some([]);
    assert HirTypes.InferBranch(TYPED, [], ret, "x", bs[0]) == Some(Hir.NoneType);
    assert HirTypes.InferBranch(TYPED, [], ret, "x", bs[1]) == Some(Hir.NoneType);
    assert [Hir.NoneType] + [] == [Hir.NoneType] && [Hir.NoneType] + [Hir.NoneType] == [Hir.NoneType, Hir.NoneType];
    assert [bs[1]][0] == bs[1];
    assert HirTypes.InferBranches(TYPED, [], ret, "x", [bs[1]]) == Some([Hir.NoneType]);
    assert Hir.SelectBranch(bs, Hir.NoneType) == 0;
    assert Hir.SelectBranch([bs[1]], Hir.ErrorType) == 0;
    assert Hir.SelectBranch(bs, Hir.ErrorType) == 1;
  }

  lemma IsWellTyped()
    ensures HirTypes.WellTyped(TYPED)
  {
    hide HirTypes.Infer;
    FindsTyped();
    HelperTyped();
    MainTyped();
    assert HirTypes.BindTypes([], []) == [];
    assert HirTypes.WellTypedDefinition(TYPED, HELPER_TYPED);
    assert HirTypes.WellTypedDefinition(TYPED, MAIN_TYPED);
  }

  lemma ErasesWrite(number: int)
    ensures Erasure.Erase(TypedWrite(number)) == AstLowering.Lower(Write(number))
  {
    var typed, source := [Hir.Constant(Number(number))], [Ast.Literal(Number(number))];
    assert typed[1..] == [] && source[1..] == [];
    assert Erasure.EraseAll(typed[1..]) == [] && AstLowering.LowerAll(source[1..]) == [];
    assert Erasure.Erase(typed[0]) == AstLowering.Lower(source[0]);
    assert Erasure.EraseAll(typed) == AstLowering.LowerAll(source);
  }

  lemma ErasesHelper()
    ensures Erasure.Erase(TYPED_HELPER) == AstLowering.LowerBlock(HELPER_BODY, 0)
  {
    ErasesWrite(1);
    ErasesWrite(2);
    var s := HELPER_BODY.statements;
    assert AstLowering.LowerStatement(s[0]) == AstLowering.Lower(Write(1));
    assert AstLowering.LowerStatement(s[2]) == AstLowering.Lower(Write(2));
    assert AstLowering.LowerStatement(s[1]) == Hir.Try(None, Hir.Constant(Error(0))) == Erasure.Erase(TYPED_TRY);
    assert AstLowering.LowerLast(HELPER_BODY) == Hir.Constant(None_);
    assert AstLowering.LowerBlock(HELPER_BODY, 3) == Hir.Constant(None_);
    var end := Hir.Coerce(Hir.NoneType, FALLIBLE, Hir.Constant(None_));
    assert AstLowering.LowerBlock(HELPER_BODY, 2) == Erasure.Erase(Then(TypedWrite(2), end));
    assert AstLowering.LowerBlock(HELPER_BODY, 1) == Erasure.Erase(Then(TYPED_TRY, Then(TypedWrite(2), end)));
  }

  lemma ErasesHandle()
    ensures Erasure.Erase(TYPED_HANDLE) == AstLowering.Lower(HANDLE)
  {
    var bs, ts := TYPED_BRANCHES, HANDLE.typeBranches;
    assert bs[1..] == [bs[1]] && [bs[1]][1..] == [] && ts[1..] == [ts[1]] && [ts[1]][1..] == [];
    assert AstLowering.LowerLast(NOTHING) == Hir.Constant(None_);
    assert AstLowering.LowerBlock(NOTHING, 0) == Hir.Constant(None_);
    assert Erasure.EraseBranch(bs[0], bs[0].annotation) == AstLowering.LowerTypeBranch(ts[0]);
    assert Erasure.EraseBranch(bs[1], bs[1].annotation) == AstLowering.LowerTypeBranch(ts[1]);
    assert Erasure.EraseBranches([]) == [] && AstLowering.LowerTypeBranches([]) == [];
    assert Erasure.EraseBranches([bs[1]]) == AstLowering.LowerTypeBranches([ts[1]]);
    assert Erasure.EraseBranches(bs) == AstLowering.LowerTypeBranches(ts);
    assert Erasure.EraseAll([]) == [] && AstLowering.LowerAll([]) == [];
  }

  lemma ErasesMain()
    ensures Erasure.Erase(TYPED_MAIN) == AstLowering.LowerBlock(MAIN_BODY, 0)
  {
    ErasesWrite(3);
    ErasesHandle();
    var s := MAIN_BODY.statements;
    assert AstLowering.LowerStatement(s[0]) == AstLowering.Lower(HANDLE);
    assert AstLowering.LowerStatement(s[1]) == AstLowering.Lower(Write(3));
    assert AstLowering.LowerLast(MAIN_BODY) == Hir.Constant(None_);
    assert AstLowering.LowerBlock(MAIN_BODY, 2) == Hir.Constant(None_);
    assert AstLowering.LowerBlock(MAIN_BODY, 1) == Erasure.Erase(Then(TypedWrite(3), Hir.Constant(None_)));
  }

  lemma IsTyped()
    ensures Pipeline.Typed(SOURCE, TYPED)
  {
    IsWellTyped();
    ErasesHelper();
    ErasesMain();
    hide Erasure.Erase, AstLowering.LowerBlock, HirTypes.WellTyped;
    var ds, ss := TYPED.functions, SOURCE.functions;
    assert ds[1..] == [MAIN_TYPED] && [MAIN_TYPED][1..] == [] && ss[1..] == [MAIN_SOURCE] && [MAIN_SOURCE][1..] == [];
    assert Erasure.EraseDefinitions([]) == AstLowering.LowerDefinitions([]);
    assert Erasure.EraseDefinitions([MAIN_TYPED]) == AstLowering.LowerDefinitions([MAIN_SOURCE]);
    assert Erasure.EraseDefinitions(ds) == AstLowering.LowerDefinitions(ss);
    assert SOURCE.imports[1..] == [] && AstLowering.LowerImports([]) == [];
    assert AstLowering.LowerImports(SOURCE.imports) == TYPED.foreigns;
  }

  /** The compiled program writes 1 and 3 in this order, and nothing after the early return. */
  lemma CodeWrites(w: World, n: nat)
    requires n > 1
    ensures Pipeline.RunCompiled(w, TYPED, n, MAIN, []) == Value(Fmm.Plain(None_), [Written(1), Written(3)])
  {
    IsTyped();
    FindsTyped();
    SourceWrites(w, n);
    hide Pipeline.Run, Pipeline.RunCompiled, Pipeline.Typed;
    Pipeline.EndToEnd(w, SOURCE, TYPED, n, MAIN, []);
  }
}
