/** What analysis adds to expressions can be erased, and leaves early returns where they are. */
module AnalysisErasure {
  import opened Sums
  import opened Semantics
  import opened Hir
  import opened HirTypes
  import opened Analysis
  import opened AnalysisTheorems
  import opened Erasure

  // ----- Erasure of inferred types -----

  /** Inference only adds what is erased again. */
  lemma {:induction false} InferErases(o: Order, p: Program, ctx: Context, e: Expression)
    requires IsSource(o, e) && InferTypes(o, p, ctx, e).Some?
    ensures Erase(InferTypes(o, p, ctx, e).value) == e
    decreases e, 1
  {
    if e.If? || e.Let? || e.Lambda? {
      InferErasesControl(o, p, ctx, e);
    } else if e.Call? {
      InferErasesCall(o, p, ctx, e);
    } else if e.IfType? {
      InferErasesIfType(o, p, ctx, e);
    } else if e.Construct? || e.Update? {
      InferErasesRecord(o, p, ctx, e);
    } else if e.Not? || e.Try? || e.Select? {
      InferErasesUnary(o, p, ctx, e);
    } else if e.And? || e.Or? || e.Numeric? || e.NotEqual? {
      InferErasesBinary(o, p, ctx, e);
    }
  }

  lemma {:induction false} InferErasesControl(o: Order, p: Program, ctx: Context, e: Expression)
    requires (e.If? || e.Let? || e.Lambda?) && IsSource(o, e) && InferTypes(o, p, ctx, e).Some?
    ensures Erase(InferTypes(o, p, ctx, e).value) == e
    decreases e, 0
  {
    hide Extract, ElseType, SuccessType, Canonical, CanonicalArguments, IsSourceAll, IsSourceBranches, IsSourceFields,
         InferTypesAll, InferTypesBranches, InferTypesFields, EraseAll, EraseBranches, EraseFields, DistinctNames;
    match e
    case If(condition, consequence, alternative) =>
      InferErases(o, p, ctx, condition);
      InferErases(o, p, ctx, consequence);
      InferErases(o, p, ctx, alternative);
    case Let(name, _, bound, body) =>
      InferErases(o, p, ctx, bound);
      InferErases(o, p, BindName(ctx, name, Extract(o, p, ctx, InferTypes(o, p, ctx, bound).value).value), body);
    case Lambda(arguments, _, body) => InferErases(o, p, BindTypes(ctx, arguments), body);
  }

  lemma {:induction false} InferErasesCall(o: Order, p: Program, ctx: Context, e: Expression)
    requires (e.Call?) && IsSource(o, e) && InferTypes(o, p, ctx, e).Some?
    ensures Erase(InferTypes(o, p, ctx, e).value) == e
    decreases e, 0
  {
    hide Extract, ElseType, SuccessType, Canonical, CanonicalArguments, IsSourceAll, IsSourceBranches, IsSourceFields,
         InferTypesAll, InferTypesBranches, InferTypesFields, EraseAll, EraseBranches, EraseFields, DistinctNames;
    InferErases(o, p, ctx, e.callee);
    InferErasesAll(o, p, ctx, e.operands);
  }

  lemma {:induction false} InferErasesIfType(o: Order, p: Program, ctx: Context, e: Expression)
    requires (e.IfType?) && IsSource(o, e) && InferTypes(o, p, ctx, e).Some?
    ensures Erase(InferTypes(o, p, ctx, e).value) == e
    decreases e, 0
  {
    hide Extract, ElseType, SuccessType, Canonical, CanonicalArguments, IsSourceAll, IsSourceBranches, IsSourceFields,
         InferTypesAll, InferTypesBranches, InferTypesFields, EraseAll, EraseBranches, EraseFields, DistinctNames;
    InferErases(o, p, ctx, e.argument);
    InferErasesBranches(o, p, ctx, e.name, e.branches);
    if e.otherwise.Some? {
      var argument, branches := InferTypes(o, p, ctx, e.argument).value, InferTypesBranches(o, p, ctx, e.name, e.branches).value;
      InferErasesBranch(o, p, ctx, e.name, e.otherwise.value, ElseType(o, p, ctx, argument, branches).value);
    }
  }

  lemma {:induction false} InferErasesRecord(o: Order, p: Program, ctx: Context, e: Expression)
    requires (e.Construct? || e.Update?) && IsSource(o, e) && InferTypes(o, p, ctx, e).Some?
    ensures Erase(InferTypes(o, p, ctx, e).value) == e
    decreases e, 0
  {
    hide Extract, ElseType, SuccessType, Canonical, CanonicalArguments, IsSourceAll, IsSourceBranches, IsSourceFields,
         InferTypesAll, InferTypesBranches, InferTypesFields, EraseAll, EraseBranches, EraseFields, DistinctNames;
    if e.Update? {
      InferErases(o, p, ctx, e.argument);
    }
    InferErasesFields(o, p, ctx, e.fields);
  }

  lemma {:induction false} InferErasesUnary(o: Order, p: Program, ctx: Context, e: Expression)
    requires (e.Not? || e.Try? || e.Select?) && IsSource(o, e) && InferTypes(o, p, ctx, e).Some?
    ensures Erase(InferTypes(o, p, ctx, e).value) == e
    decreases e, 0
  {
    hide Extract, ElseType, SuccessType, Canonical, CanonicalArguments, IsSourceAll, IsSourceBranches, IsSourceFields,
         InferTypesAll, InferTypesBranches, InferTypesFields, EraseAll, EraseBranches, EraseFields, DistinctNames;
    InferErases(o, p, ctx, e.argument);
  }

  lemma {:induction false} InferErasesBinary(o: Order, p: Program, ctx: Context, e: Expression)
    requires (e.And? || e.Or? || e.Numeric? || e.NotEqual?) && IsSource(o, e) && InferTypes(o, p, ctx, e).Some?
    ensures Erase(InferTypes(o, p, ctx, e).value) == e
    decreases e, 0
  {
    hide Extract, ElseType, SuccessType, Canonical, CanonicalArguments, IsSourceAll, IsSourceBranches, IsSourceFields,
         InferTypesAll, InferTypesBranches, InferTypesFields, EraseAll, EraseBranches, EraseFields, DistinctNames;
    InferErases(o, p, ctx, e.left);
    InferErases(o, p, ctx, e.right);
  }

  lemma {:induction false} InferErasesAll(o: Order, p: Program, ctx: Context, es: seq<Expression>)
    requires IsSourceAll(o, es) && InferTypesAll(o, p, ctx, es).Some?
    ensures EraseAll(InferTypesAll(o, p, ctx, es).value) == es
    decreases es, 0
  {
    hide InferTypes, IsSource, Erase;
    if es != [] {
      InferErases(o, p, ctx, es[0]);
      InferErasesAll(o, p, ctx, es[1..]);
      var r := InferTypesAll(o, p, ctx, es).value;
      assert r[1..] == InferTypesAll(o, p, ctx, es[1..]).value && es == [es[0]] + es[1..];
    }
  }

  lemma {:induction false} InferErasesBranches(o: Order, p: Program, ctx: Context, name: string, branches: seq<Branch>)
    requires IsSourceBranches(o, branches) && InferTypesBranches(o, p, ctx, name, branches).Some?
    ensures EraseBranches(InferTypesBranches(o, p, ctx, name, branches).value) == branches
    decreases branches, 0
  {
    hide InferTypesBranch, IsSourceBranch, EraseBranch;
    if branches != [] {
      InferErasesBranch(o, p, ctx, name, branches[0], branches[0].annotation.value);
      InferErasesBranches(o, p, ctx, name, branches[1..]);
      var r := InferTypesBranches(o, p, ctx, name, branches).value;
      assert r[1..] == InferTypesBranches(o, p, ctx, name, branches[1..]).value && branches == [branches[0]] + branches[1..];
    }
  }

  lemma {:induction false} InferErasesBranch(o: Order, p: Program, ctx: Context, name: string, branch: Branch, t: Type)
    requires IsSourceBranch(o, branch) && InferTypesBranch(o, p, ctx, name, branch, t).Some?
    ensures var r := InferTypesBranch(o, p, ctx, name, branch, t).value;
            r.annotation == Some(t) && forall a :: EraseBranch(r, a) == Branch(a, branch.body)
    decreases branch, 0
  {
    match branch
    case Branch(_, body) => InferErases(o, p, [Argument(name, t)] + ctx, body);
  }

  lemma {:induction false} InferErasesFields(o: Order, p: Program, ctx: Context, fields: seq<Field>)
    requires IsSourceFields(o, fields) && InferTypesFields(o, p, ctx, fields).Some?
    ensures EraseFields(InferTypesFields(o, p, ctx, fields).value) == fields
    decreases fields, 0
  {
    hide InferTypesField, IsSourceField, EraseField;
    if fields == [] {
      assert EraseFields(fields) == fields;
    } else {
      assert IsSourceField(o, fields[0]) && IsSourceFields(o, fields[1..]);
      hide IsSourceFields, EraseFields;
      InferErasesField(o, p, ctx, fields[0]);
      InferErasesFields(o, p, ctx, fields[1..]);
      ConsErased(InferTypesField(o, p, ctx, fields[0]).value, InferTypesFields(o, p, ctx, fields[1..]).value, fields);
    }
  }

  lemma ConsErased(f: Field, fs: seq<Field>, fields: seq<Field>)
    requires fields != [] && EraseField(f) == fields[0] && EraseFields(fs) == fields[1..]
    ensures EraseFields([f] + fs) == fields
  {
    hide EraseField;
    assert ([f] + fs)[1..] == fs && fields == [fields[0]] + fields[1..];
  }

  lemma {:induction false} InferErasesField(o: Order, p: Program, ctx: Context, field: Field)
    requires IsSourceField(o, field) && InferTypesField(o, p, ctx, field).Some?
    ensures EraseField(InferTypesField(o, p, ctx, field).value) == field
    decreases field, 0
  {
    match field
    case Field(_, expression) => InferErases(o, p, ctx, expression);
  }

  // ----- Erasure of coercions -----

  lemma CoerceToErases(o: Order, p: Program, ctx: Context, e: Option<Expression>, upper: Type)
    requires CoerceTo(o, p, ctx, e, upper).Some?
    ensures e.Some? && Erase(CoerceTo(o, p, ctx, e, upper).value) == Erase(e.value)
  {
  }

  /** Coercions only add what is erased again. */
  lemma {:induction false} CoerceErases(o: Order, p: Program, ctx: Context, e: Expression)
    requires Check(o, p, ctx, e).Some? && CoerceTypes(o, p, ctx, e).Some?
    ensures Erase(CoerceTypes(o, p, ctx, e).value) == Erase(e)
    decreases e, 1
  {
    if e.If? {
      CoerceErasesIf(o, p, ctx, e);
    } else if e.Let? || e.Lambda? {
      CoerceErasesBinding(o, p, ctx, e);
    } else if e.Call? {
      CoerceErasesCall(o, p, ctx, e);
    } else if e.IfType? {
      CoerceErasesIfType(o, p, ctx, e);
    } else if e.Construct? || e.Update? {
      CoerceErasesRecord(o, p, ctx, e);
    } else if e.Not? || e.Try? || e.Select? || e.Coerce? {
      CoerceErasesUnary(o, p, ctx, e);
    } else if e.And? || e.Or? || e.Numeric? || e.NotEqual? {
      CoerceErasesBinary(o, p, ctx, e);
    }
  }

  lemma {:induction false} CoerceErasesIf(o: Order, p: Program, ctx: Context, e: Expression)
    requires (e.If?) && Check(o, p, ctx, e).Some? && CoerceTypes(o, p, ctx, e).Some?
    ensures Erase(CoerceTypes(o, p, ctx, e).value) == Erase(e)
    decreases e, 0
  {
    hide Extract, CoerceTo, IsSubsumed, BranchesFit, FieldsFit, Union, CheckAll, CheckFields, CheckBranches, CheckElse,
         CoerceAll, CoerceBranches, CoerceElse, CoerceFields, EraseAll, EraseBranches, EraseElse, EraseFields;
    var t := Extract(o, p, ctx, e).value;
    CoerceToErases(o, p, ctx, CoerceTypes(o, p, ctx, e.consequence), t);
    CoerceToErases(o, p, ctx, CoerceTypes(o, p, ctx, e.alternative), t);
    CoerceErases(o, p, ctx, e.condition);
    CoerceErases(o, p, ctx, e.consequence);
    CoerceErases(o, p, ctx, e.alternative);
  }

  lemma {:induction false} CoerceErasesBinding(o: Order, p: Program, ctx: Context, e: Expression)
    requires (e.Let? || e.Lambda?) && Check(o, p, ctx, e).Some? && CoerceTypes(o, p, ctx, e).Some?
    ensures Erase(CoerceTypes(o, p, ctx, e).value) == Erase(e)
    decreases e, 0
  {
    hide Extract, CoerceTo, IsSubsumed, BranchesFit, FieldsFit, Union, CheckAll, CheckFields, CheckBranches, CheckElse,
         CoerceAll, CoerceBranches, CoerceElse, CoerceFields, EraseAll, EraseBranches, EraseElse, EraseFields;
    match e
    case Let(name, annotation, bound, body) =>
      CoerceErases(o, p, ctx, bound);
      CoerceErases(o, p, BindName(ctx, name, annotation.value), body);
    case Lambda(arguments, result, body) =>
      var inner := BindTypes(ctx, arguments);
      CoerceToErases(o, p, inner, CoerceTypes(o, p, inner, body), result);
      CoerceErases(o, p, inner, body);
  }

  lemma {:induction false} CoerceErasesCall(o: Order, p: Program, ctx: Context, e: Expression)
    requires (e.Call?) && Check(o, p, ctx, e).Some? && CoerceTypes(o, p, ctx, e).Some?
    ensures Erase(CoerceTypes(o, p, ctx, e).value) == Erase(e)
    decreases e, 0
  {
    hide Extract, CoerceTo, IsSubsumed, BranchesFit, FieldsFit, Union, CheckAll, CheckFields, CheckBranches, CheckElse,
         CoerceAll, CoerceBranches, CoerceElse, CoerceFields, EraseAll, EraseBranches, EraseElse, EraseFields;
    CoerceErases(o, p, ctx, e.callee);
    CoerceErasesAll(o, p, ctx, e.operands, Extract(o, p, ctx, e.callee).value.arguments);
  }

  lemma {:induction false} CoerceErasesIfType(o: Order, p: Program, ctx: Context, e: Expression)
    requires (e.IfType?) && Check(o, p, ctx, e).Some? && CoerceTypes(o, p, ctx, e).Some?
    ensures Erase(CoerceTypes(o, p, ctx, e).value) == Erase(e)
    decreases e, 0
  {
    hide Extract, CoerceTo, IsSubsumed, BranchesFit, FieldsFit, Union, CheckAll, CheckFields, CheckBranches, CheckElse,
         CoerceAll, CoerceBranches, CoerceElse, CoerceFields, EraseAll, EraseBranches, EraseElse, EraseFields;
    var t := Extract(o, p, ctx, e).value;
    CoerceErases(o, p, ctx, e.argument);
    CoerceErasesBranches(o, p, ctx, e.name, e.branches, t);
    CoerceErasesElse(o, p, ctx, e.name, e.otherwise, t);
  }

  lemma {:induction false} CoerceErasesRecord(o: Order, p: Program, ctx: Context, e: Expression)
    requires (e.Construct? || e.Update?) && Check(o, p, ctx, e).Some? && CoerceTypes(o, p, ctx, e).Some?
    ensures Erase(CoerceTypes(o, p, ctx, e).value) == Erase(e)
    decreases e, 0
  {
    hide Extract, CoerceTo, IsSubsumed, BranchesFit, FieldsFit, Union, CheckAll, CheckFields, CheckBranches, CheckElse,
         CoerceAll, CoerceBranches, CoerceElse, CoerceFields, EraseAll, EraseBranches, EraseElse, EraseFields;
    if e.Update? {
      CoerceErases(o, p, ctx, e.argument);
    }
    CoerceErasesFields(o, p, ctx, e.record, e.fields);
  }

  lemma {:induction false} CoerceErasesUnary(o: Order, p: Program, ctx: Context, e: Expression)
    requires (e.Not? || e.Try? || e.Select? || e.Coerce?) && Check(o, p, ctx, e).Some? && CoerceTypes(o, p, ctx, e).Some?
    ensures Erase(CoerceTypes(o, p, ctx, e).value) == Erase(e)
    decreases e, 0
  {
    hide Extract, CoerceTo, IsSubsumed, BranchesFit, FieldsFit, Union, CheckAll, CheckFields, CheckBranches, CheckElse,
         CoerceAll, CoerceBranches, CoerceElse, CoerceFields, EraseAll, EraseBranches, EraseElse, EraseFields;
    CoerceErases(o, p, ctx, e.argument);
  }

  lemma {:induction false} CoerceErasesBinary(o: Order, p: Program, ctx: Context, e: Expression)
    requires (e.And? || e.Or? || e.Numeric? || e.NotEqual?) && Check(o, p, ctx, e).Some? && CoerceTypes(o, p, ctx, e).Some?
    ensures Erase(CoerceTypes(o, p, ctx, e).value) == Erase(e)
    decreases e, 0
  {
    hide Extract, CoerceTo, IsSubsumed, BranchesFit, FieldsFit, Union, CheckAll, CheckFields, CheckBranches, CheckElse,
         CoerceAll, CoerceBranches, CoerceElse, CoerceFields, EraseAll, EraseBranches, EraseElse, EraseFields;
    CoerceErases(o, p, ctx, e.left);
    CoerceErases(o, p, ctx, e.right);
  }

  lemma {:induction false} CoerceErasesAll(o: Order, p: Program, ctx: Context, es: seq<Expression>, uppers: seq<Type>)
    requires CheckAll(o, p, ctx, es).Some? && |uppers| == |es| && CoerceAll(o, p, ctx, es, uppers).Some?
    ensures EraseAll(CoerceAll(o, p, ctx, es, uppers).value) == EraseAll(es)
    decreases es, 0
  {
    hide Check, CoerceTypes, CoerceTo, Erase;
    if es != [] {
      CoerceToErases(o, p, ctx, CoerceTypes(o, p, ctx, es[0]), uppers[0]);
      CoerceErases(o, p, ctx, es[0]);
      CoerceErasesAll(o, p, ctx, es[1..], uppers[1..]);
      var r := CoerceAll(o, p, ctx, es, uppers).value;
      assert r[1..] == CoerceAll(o, p, ctx, es[1..], uppers[1..]).value;
    }
  }

  lemma {:induction false} CoerceErasesBranches(o: Order, p: Program, ctx: Context, name: string, branches: seq<Branch>, upper: Type)
    requires CheckBranches(o, p, ctx, name, branches) && CoerceBranches(o, p, ctx, name, branches, upper).Some?
    ensures EraseBranches(CoerceBranches(o, p, ctx, name, branches, upper).value) == EraseBranches(branches)
    decreases branches, 0
  {
    hide CheckBranch, CoerceBranch, EraseBranch;
    if branches != [] {
      CoerceErasesBranch(o, p, ctx, name, branches[0], upper);
      CoerceErasesBranches(o, p, ctx, name, branches[1..], upper);
      var r := CoerceBranches(o, p, ctx, name, branches, upper).value;
      assert r[1..] == CoerceBranches(o, p, ctx, name, branches[1..], upper).value;
    }
  }

  lemma {:induction false} CoerceErasesElse(o: Order, p: Program, ctx: Context, name: string, otherwise: Option<Branch>, upper: Type)
    requires CheckElse(o, p, ctx, name, otherwise) && CoerceElse(o, p, ctx, name, otherwise, upper).Some?
    ensures EraseElse(CoerceElse(o, p, ctx, name, otherwise, upper).value) == EraseElse(otherwise)
    decreases otherwise, 0
  {
    hide CheckBranch, CoerceBranch, EraseBranch;
    match otherwise
    case None =>
    case Some(branch) => CoerceErasesBranch(o, p, ctx, name, branch, upper);
  }

  lemma {:induction false} CoerceErasesBranch(o: Order, p: Program, ctx: Context, name: string, branch: Branch, upper: Type)
    requires CheckBranch(o, p, ctx, name, branch) && CoerceBranch(o, p, ctx, name, branch, upper).Some?
    ensures forall a :: EraseBranch(CoerceBranch(o, p, ctx, name, branch, upper).value, a) == EraseBranch(branch, a)
    decreases branch, 0
  {
    hide Check, CoerceTypes, CoerceTo, Erase;
    match branch
    case Branch(Some(t), body) =>
      var inner := [Argument(name, t)] + ctx;
      CoerceToErases(o, p, inner, CoerceTypes(o, p, inner, body), upper);
      CoerceErases(o, p, inner, body);
  }

  lemma {:induction false} CoerceErasesFields(o: Order, p: Program, ctx: Context, record: string, fields: seq<Field>)
    requires CheckFields(o, p, ctx, fields).Some? && CoerceFields(o, p, ctx, record, fields).Some?
    ensures EraseFields(CoerceFields(o, p, ctx, record, fields).value) == EraseFields(fields)
    decreases fields, 0
  {
    hide CheckField, CoerceField, EraseField;
    if fields != [] {
      CoerceErasesField(o, p, ctx, record, fields[0]);
      CoerceErasesFields(o, p, ctx, record, fields[1..]);
      var r := CoerceFields(o, p, ctx, record, fields).value;
      assert r[1..] == CoerceFields(o, p, ctx, record, fields[1..]).value;
    }
  }

  lemma {:induction false} CoerceErasesField(o: Order, p: Program, ctx: Context, record: string, field: Field)
    requires CheckField(o, p, ctx, field).Some? && CoerceField(o, p, ctx, record, field).Some?
    ensures EraseField(CoerceField(o, p, ctx, record, field).value) == EraseField(field)
    decreases field, 0
  {
    hide Check, CoerceTypes, CoerceTo, Erase;
    match field
    case Field(name, expression) =>
      CoerceToErases(o, p, ctx, CoerceTypes(o, p, ctx, expression), DeclaredType(p, record, name).value);
      CoerceErases(o, p, ctx, expression);
  }

  // ----- Early returns -----

  /** Erasure leaves early returns and the functions that they are in. */
  lemma {:induction false} ReturnsErased(allows: Type -> bool, result: Type, e: Expression)
    ensures TriesReturn(allows, result, Erase(e)) <==> TriesReturn(allows, result, e)
    decreases e, 1
  {
    if e.If? || e.Let? || e.Lambda? {
      ReturnsErasedControl(allows, result, e);
    } else if e.And? || e.Or? || e.Numeric? || e.NotEqual? {
      ReturnsErasedBinary(allows, result, e);
    } else if e.Not? || e.Try? || e.Select? || e.Coerce? {
      ReturnsErasedUnary(allows, result, e);
    } else if e.Construct? || e.Update? {
      ReturnsErasedRecord(allows, result, e);
    } else if e.Call? || e.IfType? {
      ReturnsErasedMany(allows, result, e);
    }
  }

  lemma {:induction false} ReturnsErasedControl(allows: Type -> bool, result: Type, e: Expression)
    requires e.If? || e.Let? || e.Lambda?
    ensures TriesReturn(allows, result, Erase(e)) <==> TriesReturn(allows, result, e)
    decreases e, 0
  {
    hide AllReturn, BranchesReturn, FieldsReturn, BranchReturns, EraseAll, EraseBranches, EraseFields, EraseBranch;
    match e
    case If(condition, consequence, alternative) =>
      ReturnsErased(allows, result, condition);
      ReturnsErased(allows, result, consequence);
      ReturnsErased(allows, result, alternative);
    case Let(_, _, bound, body) =>
      ReturnsErased(allows, result, bound);
      ReturnsErased(allows, result, body);
    case Lambda(_, ownResult, body) => ReturnsErased(allows, ownResult, body);
  }

  lemma {:induction false} ReturnsErasedBinary(allows: Type -> bool, result: Type, e: Expression)
    requires e.And? || e.Or? || e.Numeric? || e.NotEqual?
    ensures TriesReturn(allows, result, Erase(e)) <==> TriesReturn(allows, result, e)
    decreases e, 0
  {
    hide AllReturn, BranchesReturn, FieldsReturn, BranchReturns, EraseAll, EraseBranches, EraseFields, EraseBranch;
    ReturnsErased(allows, result, e.left);
    ReturnsErased(allows, result, e.right);
  }

  lemma {:induction false} ReturnsErasedUnary(allows: Type -> bool, result: Type, e: Expression)
    requires e.Not? || e.Try? || e.Select? || e.Coerce?
    ensures TriesReturn(allows, result, Erase(e)) <==> TriesReturn(allows, result, e)
    decreases e, 0
  {
    hide AllReturn, BranchesReturn, FieldsReturn, BranchReturns, EraseAll, EraseBranches, EraseFields, EraseBranch;
    ReturnsErased(allows, result, e.argument);
  }

  lemma {:induction false} ReturnsErasedRecord(allows: Type -> bool, result: Type, e: Expression)
    requires e.Construct? || e.Update?
    ensures TriesReturn(allows, result, Erase(e)) <==> TriesReturn(allows, result, e)
    decreases e, 0
  {
    hide AllReturn, BranchesReturn, FieldsReturn, BranchReturns, EraseAll, EraseBranches, EraseFields, EraseBranch;
    if e.Update? {
      ReturnsErased(allows, result, e.argument);
    }
    ReturnsErasedFields(allows, result, e.fields);
  }

  lemma {:induction false} ReturnsErasedMany(allows: Type -> bool, result: Type, e: Expression)
    requires e.Call? || e.IfType?
    ensures TriesReturn(allows, result, Erase(e)) <==> TriesReturn(allows, result, e)
    decreases e, 0
  {
    hide AllReturn, BranchesReturn, FieldsReturn, BranchReturns, EraseAll, EraseBranches, EraseFields, EraseBranch;
    if e.Call? {
      ReturnsErased(allows, result, e.callee);
      ReturnsErasedAll(allows, result, e.operands);
    } else {
      ReturnsErased(allows, result, e.argument);
      ReturnsErasedBranches(allows, result, e.branches);
      if e.otherwise.Some? {
        ReturnsErasedBranch(allows, result, e.otherwise.value, None);
      }
    }
  }

  lemma {:induction false} ReturnsErasedAll(allows: Type -> bool, result: Type, es: seq<Expression>)
    ensures AllReturn(allows, result, EraseAll(es)) <==> AllReturn(allows, result, es)
    decreases es, 0
  {
    hide TriesReturn, Erase;
    forall i | 0 <= i < |es| ensures EraseAll(es)[i] == Erase(es[i]) && (TriesReturn(allows, result, Erase(es[i])) <==> TriesReturn(allows, result, es[i])) {
      ErasedAt(es, i);
      ReturnsErased(allows, result, es[i]);
    }
  }

  lemma {:induction false} ErasedAt(es: seq<Expression>, i: nat)
    requires i < |es|
    ensures EraseAll(es)[i] == Erase(es[i])
  {
    hide Erase;
    if i > 0 {
      ErasedAt(es[1..], i - 1);
    }
  }

  lemma {:induction false} ReturnsErasedBranches(allows: Type -> bool, result: Type, branches: seq<Branch>)
    ensures BranchesReturn(allows, result, EraseBranches(branches)) <==> BranchesReturn(allows, result, branches)
    decreases branches, 0
  {
    hide BranchReturns, EraseBranch;
    forall i | 0 <= i < |branches|
      ensures BranchReturns(allows, result, EraseBranches(branches)[i]) <==> BranchReturns(allows, result, branches[i])
    {
      BranchErased(branches, i);
      ReturnsErasedBranch(allows, result, branches[i], branches[i].annotation);
    }
  }

  lemma {:induction false} ReturnsErasedBranch(allows: Type -> bool, result: Type, branch: Branch, annotation: Option<Type>)
    ensures BranchReturns(allows, result, EraseBranch(branch, annotation)) <==> BranchReturns(allows, result, branch)
    decreases branch, 0
  {
    match branch
    case Branch(_, body) => ReturnsErased(allows, result, body);
  }

  lemma {:induction false} ReturnsErasedFields(allows: Type -> bool, result: Type, fields: seq<Field>)
    ensures FieldsReturn(allows, result, EraseFields(fields)) <==> FieldsReturn(allows, result, fields)
    decreases fields, 0
  {
    hide FieldReturns, EraseField;
    forall i | 0 <= i < |fields|
      ensures FieldReturns(allows, result, EraseFields(fields)[i]) <==> FieldReturns(allows, result, fields[i])
    {
      FieldErased(fields, i);
      ReturnsErasedField(allows, result, fields[i]);
    }
  }

  lemma {:induction false} FieldErased(fields: seq<Field>, i: nat)
    requires i < |fields|
    ensures EraseFields(fields)[i] == EraseField(fields[i])
  {
    hide EraseField;
    if i > 0 {
      FieldErased(fields[1..], i - 1);
    }
  }

  lemma {:induction false} ReturnsErasedField(allows: Type -> bool, result: Type, field: Field)
    ensures FieldReturns(allows, result, EraseField(field)) <==> FieldReturns(allows, result, field)
    decreases field, 0
  {
    match field
    case Field(_, expression) => ReturnsErased(allows, result, expression);
  }

  // ----- Early returns of typed expressions -----

  /** Typed expressions return errors early from functions of variants only. */
  lemma {:induction false} TypedReturns(p: Program, ctx: Context, ret: Type, e: Expression)
    requires Infer(p, ctx, Some(ret), e).Some?
    ensures TriesReturn(PassesVariants, ret, e)
    decreases e, 1
  {
    if e.If? || e.Let? || e.Lambda? {
      TypedReturnsControl(p, ctx, ret, e);
    } else if e.Call? || e.IfType? {
      TypedReturnsMany(p, ctx, ret, e);
    } else if e.Construct? || e.Update? {
      TypedReturnsRecord(p, ctx, ret, e);
    } else if e.Not? || e.Try? || e.Select? || e.Coerce? {
      TypedReturnsUnary(p, ctx, ret, e);
    } else if e.And? || e.Or? || e.Numeric? || e.NotEqual? {
      TypedReturnsBinary(p, ctx, ret, e);
    }
  }

  lemma {:induction false} TypedReturnsControl(p: Program, ctx: Context, ret: Type, e: Expression)
    requires (e.If? || e.Let? || e.Lambda?) && Infer(p, ctx, Some(ret), e).Some?
    ensures TriesReturn(PassesVariants, ret, e)
    decreases e, 0
  {
    hide Covers, GivesAll, GivesSome, CanCoerce, IsTestable, InferAll, InferBranches, InferFields, AllReturn, BranchesReturn, FieldsReturn;
    match e
    case If(condition, consequence, alternative) =>
      TypedReturns(p, ctx, ret, condition);
      TypedReturns(p, ctx, ret, consequence);
      TypedReturns(p, ctx, ret, alternative);
    case Let(name, annotation, bound, body) =>
      TypedReturns(p, ctx, ret, bound);
      TypedReturns(p, if name.Some? then [Argument(name.value, annotation.value)] + ctx else ctx, ret, body);
    case Lambda(arguments, result, body) => TypedReturns(p, BindTypes(ctx, arguments), result, body);
  }

  lemma {:induction false} TypedReturnsMany(p: Program, ctx: Context, ret: Type, e: Expression)
    requires (e.Call? || e.IfType?) && Infer(p, ctx, Some(ret), e).Some?
    ensures TriesReturn(PassesVariants, ret, e)
    decreases e, 0
  {
    hide Covers, GivesAll, GivesSome, CanCoerce, IsTestable, InferAll, InferBranches, InferFields, AllReturn, BranchesReturn, FieldsReturn;
    if e.Call? {
      TypedReturns(p, ctx, ret, e.callee);
      TypedReturnsAll(p, ctx, ret, e.operands);
    } else {
      TypedReturns(p, ctx, ret, e.argument);
      TypedReturnsBranches(p, ctx, ret, e.name, e.branches);
      if e.otherwise.Some? {
        TypedReturnsBranch(p, ctx, ret, e.name, e.otherwise.value);
      }
    }
  }

  lemma {:induction false} TypedReturnsRecord(p: Program, ctx: Context, ret: Type, e: Expression)
    requires (e.Construct? || e.Update?) && Infer(p, ctx, Some(ret), e).Some?
    ensures TriesReturn(PassesVariants, ret, e)
    decreases e, 0
  {
    hide Covers, GivesAll, GivesSome, CanCoerce, IsTestable, InferAll, InferBranches, InferFields, AllReturn, BranchesReturn, FieldsReturn;
    if e.Update? {
      TypedReturns(p, ctx, ret, e.argument);
    }
    TypedReturnsFields(p, ctx, ret, e.fields);
  }

  lemma {:induction false} TypedReturnsUnary(p: Program, ctx: Context, ret: Type, e: Expression)
    requires (e.Not? || e.Try? || e.Select? || e.Coerce?) && Infer(p, ctx, Some(ret), e).Some?
    ensures TriesReturn(PassesVariants, ret, e)
    decreases e, 0
  {
    hide Covers, GivesAll, GivesSome, CanCoerce, IsTestable, InferAll, InferBranches, InferFields, AllReturn, BranchesReturn, FieldsReturn;
    TypedReturns(p, ctx, ret, e.argument);
  }

  lemma {:induction false} TypedReturnsBinary(p: Program, ctx: Context, ret: Type, e: Expression)
    requires (e.And? || e.Or? || e.Numeric? || e.NotEqual?) && Infer(p, ctx, Some(ret), e).Some?
    ensures TriesReturn(PassesVariants, ret, e)
    decreases e, 0
  {
    hide Covers, GivesAll, GivesSome, CanCoerce, IsTestable, InferAll, InferBranches, InferFields, AllReturn, BranchesReturn, FieldsReturn;
    TypedReturns(p, ctx, ret, e.left);
    TypedReturns(p, ctx, ret, e.right);
  }

  lemma {:induction false} TypedReturnsAll(p: Program, ctx: Context, ret: Type, es: seq<Expression>)
    requires InferAll(p, ctx, Some(ret), es).Some?
    ensures AllReturn(PassesVariants, ret, es)
    decreases es, 0
  {
    hide Infer, TriesReturn;
    if es != [] {
      TypedReturns(p, ctx, ret, es[0]);
      TypedReturnsAll(p, ctx, ret, es[1..]);
      assert forall i :: 0 < i < |es| ==> es[i] == es[1..][i - 1];
    }
  }

  lemma {:induction false} TypedReturnsBranches(p: Program, ctx: Context, ret: Type, name: string, branches: seq<Branch>)
    requires InferBranches(p, ctx, Some(ret), name, branches).Some?
    ensures BranchesReturn(PassesVariants, ret, branches)
    decreases branches, 0
  {
    hide InferBranch, BranchReturns;
    if branches != [] {
      TypedReturnsBranch(p, ctx, ret, name, branches[0]);
      TypedReturnsBranches(p, ctx, ret, name, branches[1..]);
      assert forall i :: 0 < i < |branches| ==> branches[i] == branches[1..][i - 1];
    }
  }

  lemma {:induction false} TypedReturnsBranch(p: Program, ctx: Context, ret: Type, name: string, branch: Branch)
    requires InferBranch(p, ctx, Some(ret), name, branch).Some?
    ensures BranchReturns(PassesVariants, ret, branch)
    decreases branch, 0
  {
    match branch
    case Branch(Some(t), body) => TypedReturns(p, [Argument(name, t)] + ctx, ret, body);
  }

  lemma {:induction false} TypedReturnsFields(p: Program, ctx: Context, ret: Type, fields: seq<Field>)
    requires InferFields(p, ctx, Some(ret), fields).Some?
    ensures FieldsReturn(PassesVariants, ret, fields)
    decreases fields, 0
  {
    hide InferField, FieldReturns;
    if fields != [] {
      TypedReturnsField(p, ctx, ret, fields[0]);
      TypedReturnsFields(p, ctx, ret, fields[1..]);
      assert forall i :: 0 < i < |fields| ==> fields[i] == fields[1..][i - 1];
    }
  }

  lemma {:induction false} TypedReturnsField(p: Program, ctx: Context, ret: Type, field: Field)
    requires InferField(p, ctx, Some(ret), field).Some?
    ensures FieldReturns(PassesVariants, ret, field)
    decreases field, 0
  {
    match field
    case Field(_, expression) => TypedReturns(p, ctx, ret, expression);
  }
}
