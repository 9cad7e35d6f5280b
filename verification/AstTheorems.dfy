/** Syntax trees mean what their lowered form means, down to effects, early returns and stuck evaluations. */
module AstTheorems {
  import opened Sums
  import opened Semantics
  import opened Hir
  import opened AstLowering
  import Ast

  // ----- Values -----

  function LowerValue(v: Ast.Value): Value
    decreases v, 0
  {
    match v
    case Plain(base) => Plain(base)
    case Record(name, fields) => Record(name, LowerValues(fields))
    case Closure(arguments, result, body, env) => Closure(arguments, result, LowerBlock(body, 0), LowerEnvironment(env))
    case Foreign(name, types, result) => Foreign(name, types, result)
    case Collection(type_, contents) => Collection(type_, contents)
  }

  function LowerValues(vs: seq<Ast.Value>): (r: seq<Value>)
    ensures |r| == |vs| && forall i :: 0 <= i < |vs| ==> r[i] == LowerValue(vs[i])
    decreases vs, 0
  {
    if vs == [] then []
    else
      assert forall i :: 0 < i < |vs| ==> vs[i] == vs[1..][i - 1];
      [LowerValue(vs[0])] + LowerValues(vs[1..])
  }

  function LowerEnvironment(env: Ast.Environment): (r: Environment)
    ensures |r| == |env|
    decreases env, 0
  {
    if env == [] then [] else [LowerBinding(env[0])] + LowerEnvironment(env[1..])
  }

  function LowerBinding(b: Ast.Binding): Binding
    decreases b, 0
  {
    match b
    case Binding(name, annotation, value) => Binding(name, annotation, LowerValue(value))
  }

  function LowerResult(o: Ast.Result): Result {
    match o
    case Value(v, trace) => Value(LowerValue(v), trace)
    case Return(v, trace) => Return(LowerValue(v), trace)
    case Stuck => Stuck
    case Timeout => Timeout
  }

  function LowerResults(o: Ast.Results): Results {
    match o
    case Value(vs, trace) => Value(LowerValues(vs), trace)
    case Return(v, trace) => Return(LowerValue(v), trace)
    case Stuck => Stuck
    case Timeout => Timeout
  }

  lemma SameType(v: Ast.Value)
    ensures TypeOf(LowerValue(v)) == Ast.TypeOf(v)
  {
  }

  // ----- Environments -----

  lemma {:induction false} LookupLowers(env: Ast.Environment, name: string)
    ensures Lookup(LowerEnvironment(env), name).Some? <==> Ast.Lookup(env, name).Some?
    ensures Ast.Lookup(env, name).Some? ==> Lookup(LowerEnvironment(env), name).value.value == LowerValue(Ast.Lookup(env, name).value)
  {
    hide LowerValue;
    if env != [] {
      match env[0] {
        case Binding(_, _, _) =>
          LookupLowers(env[1..], name);
          assert LowerEnvironment(env)[1..] == LowerEnvironment(env[1..]);
      }
    }
  }

  lemma {:induction false} FindLowers(ds: seq<Ast.Definition>, name: string)
    ensures FindDefinition(LowerDefinitions(ds), name) ==
            match Ast.FindDefinition(ds, name)
            case None => None
            case Some(d) => Some(Definition(d.name, d.arguments, d.result, LowerBlock(d.body, 0)))
  {
    hide Lower, LowerBlock;
    if ds != [] {
      FindLowers(ds[1..], name);
      assert LowerDefinitions(ds)[1..] == LowerDefinitions(ds[1..]);
    }
  }

  lemma {:induction false} ImportLowers(imports: seq<Ast.ForeignImport>, name: string)
    ensures FindForeign(LowerImports(imports), name) ==
            match Ast.FindImport(imports, name)
            case None => None
            case Some(d) => Some(ForeignDeclaration(d.name, d.name, d.types, d.result))
  {
    if imports != [] {
      ImportLowers(imports[1..], name);
      assert LowerImports(imports)[1..] == LowerImports(imports[1..]);
    }
  }

  lemma ConsLowers(name: string, annotation: Option<Type>, v: Ast.Value, env: Ast.Environment)
    ensures LowerEnvironment([Ast.Binding(name, annotation, v)] + env) == [Binding(name, annotation, LowerValue(v))] + LowerEnvironment(env)
  {
    hide LowerValue;
    var env' := [Ast.Binding(name, annotation, v)] + env;
    assert env'[1..] == env;
    assert LowerBinding(env'[0]) == Binding(name, annotation, LowerValue(v));
  }

  lemma {:induction false} BindAllLowers(env: Ast.Environment, arguments: seq<Argument>, vs: seq<Ast.Value>)
    requires |arguments| == |vs|
    ensures LowerEnvironment(Ast.BindAll(env, arguments, vs)) == BindAll(LowerEnvironment(env), arguments, LowerValues(vs))
    decreases |arguments|
  {
    hide LowerValue, LowerEnvironment;
    if arguments != [] {
      var a := arguments[0];
      ConsLowers(a.name, Some(a.type_), vs[0], env);
      BindAllLowers([Ast.Binding(a.name, Some(a.type_), vs[0])] + env, arguments[1..], vs[1..]);
      assert LowerValues(vs)[1..] == LowerValues(vs[1..]);
    }
  }

  lemma {:induction false} SelectLowers(branches: seq<Ast.TypeBranch>, concrete: Type)
    ensures SelectBranch(LowerTypeBranches(branches), concrete) == Ast.SelectBranch(branches, concrete)
    decreases |branches|
  {
    hide Lower, LowerBlock;
    if branches != [] {
      match branches[0] {
        case TypeBranch(_, _) =>
          SelectLowers(branches[1..], concrete);
          assert LowerTypeBranches(branches)[1..] == LowerTypeBranches(branches[1..]);
      }
    }
  }

  lemma {:induction false} TypeBranchLowers(branches: seq<Ast.TypeBranch>, i: nat)
    requires i < |branches|
    ensures LowerTypeBranches(branches)[i] == LowerTypeBranch(branches[i])
  {
    hide LowerTypeBranch;
    if i > 0 {
      TypeBranchLowers(branches[1..], i - 1);
    }
  }

  lemma NamesLower(fields: seq<Ast.Field>)
    ensures FieldNames(LowerFields(fields)) == Ast.FieldNames(fields)
  {
    hide LowerFields;
  }

  // ----- Records -----

  lemma {:induction false} ArrangeLowers(declared: seq<FieldType>, names: seq<string>, vs: seq<Ast.Value>)
    requires |names| == |vs|
    ensures Arrange(declared, names, LowerValues(vs)) ==
            match Arrange(declared, names, vs)
            case None => None
            case Some(arranged) => Some(LowerValues(arranged))
    decreases |declared|
  {
    hide LowerValue;
    if declared != [] {
      ArrangeLowers(declared[1..], names, vs);
      var i, rest := NameIndex(names, declared[0].name), Arrange(declared[1..], names, vs);
      if i.Some? && rest.Some? {
        var all := [vs[i.value]] + rest.value;
        assert all[0] == vs[i.value] && all[1..] == rest.value;
        assert LowerValues(all) == [LowerValue(vs[i.value])] + LowerValues(rest.value);
      }
    }
  }

  lemma {:induction false} ReplaceLowers(declared: seq<FieldType>, old_: seq<Ast.Value>, names: seq<string>, vs: seq<Ast.Value>)
    requires |names| == |vs| && |old_| == |declared|
    ensures Replace(declared, LowerValues(old_), names, LowerValues(vs)) ==
            match Replace(declared, old_, names, vs)
            case None => None
            case Some(replaced) => Some(LowerValues(replaced))
    decreases |names|
  {
    hide LowerValue;
    if names != [] && FieldIndex(declared, names[0]).Some? {
      var i := FieldIndex(declared, names[0]).value;
      ReplaceLowers(declared, old_[i := vs[0]], names[1..], vs[1..]);
      assert LowerValues(vs)[1..] == LowerValues(vs[1..]);
      assert LowerValues(old_[i := vs[0]]) == LowerValues(old_)[i := LowerValue(vs[0])];
    }
  }

  // ----- Simulation -----

  function Lowered(w: World, p: Ast.Program, n: nat, env: Ast.Environment, trace: Trace, e: Expression): Result {
    Eval(w, LowerProgram(p), n, LowerEnvironment(env), trace, e)
  }

  lemma LowersVariable(w: World, p: Ast.Program, n: nat, env: Ast.Environment, trace: Trace, e: Ast.Expression)
    requires e.Variable?
    ensures Lowered(w, p, n, env, trace, Lower(e)) == LowerResult(Ast.Eval(w, p, n, env, trace, e))
  {
    LookupLowers(env, e.name);
    FindLowers(p.functions, e.name);
    ImportLowers(p.imports, e.name);
    assert LowerEnvironment([]) == [];
  }

  lemma {:induction false} LowersUnary(w: World, p: Ast.Program, n: nat, env: Ast.Environment, trace: Trace, e: Ast.Expression)
    requires e.Not? || e.Try?
    ensures Lowered(w, p, n, env, trace, Lower(e)) == LowerResult(Ast.Eval(w, p, n, env, trace, e))
    decreases 2 * n + 1, e, 0
  {
    hide LowerEnvironment;
    Lowers(w, p, n, env, trace, e.operand);
    var o := Ast.Eval(w, p, n, env, trace, e.operand);
    if o.Value? {
      SameType(o.value);
    }
  }

  lemma {:induction false} LowersBinary(w: World, p: Ast.Program, n: nat, env: Ast.Environment, trace: Trace, e: Ast.Expression)
    requires e.Binary?
    ensures Lowered(w, p, n, env, trace, Lower(e)) == LowerResult(Ast.Eval(w, p, n, env, trace, e))
    decreases 2 * n + 1, e, 0
  {
    hide LowerEnvironment, Eval, Ast.Eval, Lower;
    Lowers(w, p, n, env, trace, e.left);
    var o := Ast.Eval(w, p, n, env, trace, e.left);
    if o.Value? {
      Lowers(w, p, n, env, o.trace, e.right);
    }
    if e.operator.Conjunction? || e.operator.Disjunction? {
      LowersJunction(w, p, n, env, trace, e);
    } else {
      LowersOperation(w, p, n, env, trace, e);
    }
  }

  ghost predicate OperandsLower(w: World, p: Ast.Program, n: nat, env: Ast.Environment, trace: Trace, left: Ast.Expression, right: Ast.Expression) {
    var o := Ast.Eval(w, p, n, env, trace, left);
    && Lowered(w, p, n, env, trace, Lower(left)) == LowerResult(o)
    && (o.Value? ==> Lowered(w, p, n, env, o.trace, Lower(right)) == LowerResult(Ast.Eval(w, p, n, env, o.trace, right)))
  }

  lemma LowersJunction(w: World, p: Ast.Program, n: nat, env: Ast.Environment, trace: Trace, e: Ast.Expression)
    requires e.Binary? && (e.operator.Conjunction? || e.operator.Disjunction?) && OperandsLower(w, p, n, env, trace, e.left, e.right)
    ensures Lowered(w, p, n, env, trace, Lower(e)) == LowerResult(Ast.Eval(w, p, n, env, trace, e))
  {
    hide LowerEnvironment;
  }

  lemma LowersOperation(w: World, p: Ast.Program, n: nat, env: Ast.Environment, trace: Trace, e: Ast.Expression)
    requires e.Binary? && (e.operator.Difference? || e.operator.Calculation?) && OperandsLower(w, p, n, env, trace, e.left, e.right)
    ensures Lowered(w, p, n, env, trace, Lower(e)) == LowerResult(Ast.Eval(w, p, n, env, trace, e))
  {
    hide LowerEnvironment;
  }

  lemma {:induction false} LowersCall(w: World, p: Ast.Program, n: nat, env: Ast.Environment, trace: Trace, e: Ast.Expression)
    requires e.Call?
    ensures Lowered(w, p, n, env, trace, Lower(e)) == LowerResult(Ast.Eval(w, p, n, env, trace, e))
    decreases 2 * n + 1, e, 0
  {
    hide LowerEnvironment, LowerValue;
    Lowers(w, p, n, env, trace, e.callee);
    var o := Ast.Eval(w, p, n, env, trace, e.callee);
    if o.Value? {
      LowersAll(w, p, n, env, o.trace, e.operands);
      var os := Ast.EvalAll(w, p, n, env, o.trace, e.operands);
      if os.Value? {
        LowersApply(w, p, n, o.value, os.value, os.trace);
      }
    }
  }

  lemma {:induction false} LowersApply(w: World, p: Ast.Program, n: nat, f: Ast.Value, vs: seq<Ast.Value>, trace: Trace)
    ensures Apply(w, LowerProgram(p), n, LowerValue(f), LowerValues(vs), trace) == LowerResult(Ast.Apply(w, p, n, f, vs, trace))
    decreases 2 * n
  {
    hide Eval, Ast.Eval, LowerEnvironment, Lower;
    match f
    case Closure(arguments, result, body, env) =>
      if |arguments| == |vs| && n > 0 {
        BindAllLowers(env, arguments, vs);
        LowersBlock(w, p, n - 1, Ast.BindAll(env, arguments, vs), trace, body, 0);
        hide LowerBlock, Ast.EvalBlock;
      }
    case Foreign(name, types, result) =>
      assert Ast.AllPlain(vs) == AllPlain(LowerValues(vs)) by {
        if AllPlain(LowerValues(vs)) {
          forall i | 0 <= i < |vs| ensures vs[i].Plain? {
            assert LowerValues(vs)[i].Plain?;
          }
        }
      }
      if Ast.AllPlain(vs) {
        assert Bases(LowerValues(vs)) == Ast.Bases(vs);
      }
    case _ =>
  }

  lemma {:induction false} LowersAll(w: World, p: Ast.Program, n: nat, env: Ast.Environment, trace: Trace,
                      es: seq<Ast.Expression>)
    ensures EvalAll(w, LowerProgram(p), n, LowerEnvironment(env), trace, LowerAll(es)) == LowerResults(Ast.EvalAll(w, p, n, env, trace, es))
    decreases 2 * n + 1, es, 0
  {
    hide LowerEnvironment, LowerValue;
    if es != [] {
      Lowers(w, p, n, env, trace, es[0]);
      var o := Ast.Eval(w, p, n, env, trace, es[0]);
      assert LowerAll(es)[1..] == LowerAll(es[1..]);
      if o.Value? {
        LowersAll(w, p, n, env, o.trace, es[1..]);
        var os := Ast.EvalAll(w, p, n, env, o.trace, es[1..]);
        hide Eval, Ast.Eval, Lower;
        if os.Value? {
          ConsValues(o.value, os.value);
        }
      }
    }
  }

  lemma ConsValues(v: Ast.Value, vs: seq<Ast.Value>)
    ensures LowerValues([v] + vs) == [LowerValue(v)] + LowerValues(vs)
  {
    hide LowerValue;
    assert ([v] + vs)[1..] == vs;
  }

  lemma {:induction false} LowersFields(w: World, p: Ast.Program, n: nat, env: Ast.Environment, trace: Trace,
                      fields: seq<Ast.Field>)
    ensures EvalFields(w, LowerProgram(p), n, LowerEnvironment(env), trace, LowerFields(fields))
         == LowerResults(Ast.EvalFields(w, p, n, env, trace, fields))
    decreases 2 * n + 1, fields, 0
  {
    hide LowerEnvironment, LowerValue, Eval, Ast.Eval;
    if fields != [] {
      LowersField(w, p, n, env, trace, fields[0]);
      var o := Ast.EvalField(w, p, n, env, trace, fields[0]);
      assert LowerFields(fields)[1..] == LowerFields(fields[1..]);
      hide EvalField, Ast.EvalField, LowerField;
      if o.Value? {
        LowersFields(w, p, n, env, o.trace, fields[1..]);
        var os := Ast.EvalFields(w, p, n, env, o.trace, fields[1..]);
        if os.Value? {
          ConsValues(o.value, os.value);
        }
      }
    }
  }

  lemma {:induction false} LowersField(w: World, p: Ast.Program, n: nat, env: Ast.Environment, trace: Trace, field: Ast.Field)
    ensures EvalField(w, LowerProgram(p), n, LowerEnvironment(env), trace, LowerField(field))
         == LowerResult(Ast.EvalField(w, p, n, env, trace, field))
    decreases 2 * n + 1, field, 0
  {
    hide Eval, Ast.Eval;
    match field
    case Field(_, expression) => Lowers(w, p, n, env, trace, expression);
  }

  lemma {:induction false} LowersRecord(w: World, p: Ast.Program, n: nat, env: Ast.Environment, trace: Trace, e: Ast.Expression)
    requires e.RecordLiteral?
    ensures Lowered(w, p, n, env, trace, Lower(e)) == LowerResult(Ast.Eval(w, p, n, env, trace, e))
    decreases 2 * n + 1, e, 0
  {
    hide LowerEnvironment;
    NamesLower(e.fields);
    match e.base_record
    case None =>
      LowersFields(w, p, n, env, trace, e.fields);
      var os := Ast.EvalFields(w, p, n, env, trace, e.fields);
      assert Lower(e) == Construct(e.record, LowerFields(e.fields));
      if os.Value? {
        ConstructLowers(p, e.record, Ast.FieldNames(e.fields), os.value, os.trace);
        hide Constructed, Ast.Constructed;
      }
    case Some(base) =>
      Lowers(w, p, n, env, trace, base);
      var o := Ast.Eval(w, p, n, env, trace, base);
      if o.Value? {
        LowersFields(w, p, n, env, o.trace, e.fields);
      }
      LowersUpdate(w, p, n, env, trace, e, base);
  }

  lemma LowersUpdate(w: World, p: Ast.Program, n: nat, env: Ast.Environment, trace: Trace, e: Ast.Expression, base: Ast.Expression)
    requires e.RecordLiteral? && e.base_record == Some(base)
    requires Lowered(w, p, n, env, trace, Lower(base)) == LowerResult(Ast.Eval(w, p, n, env, trace, base))
    requires Ast.Eval(w, p, n, env, trace, base).Value? ==>
               var now := Ast.Eval(w, p, n, env, trace, base).trace;
               EvalFields(w, LowerProgram(p), n, LowerEnvironment(env), now, LowerFields(e.fields)) ==
               LowerResults(Ast.EvalFields(w, p, n, env, now, e.fields))
    ensures Lowered(w, p, n, env, trace, Lower(e)) == LowerResult(Ast.Eval(w, p, n, env, trace, e))
  {
    hide LowerEnvironment;
    NamesLower(e.fields);
    assert Lower(e) == Update(e.record, Lower(base), LowerFields(e.fields));
    var o := Ast.Eval(w, p, n, env, trace, base);
    if o.Value? {
      var os := Ast.EvalFields(w, p, n, env, o.trace, e.fields);
      if os.Value? {
        UpdateLowers(p, e.record, o.value, Ast.FieldNames(e.fields), os.value, os.trace);
        hide Updated, Ast.Updated;
      }
    }
  }

  lemma ConstructLowers(p: Ast.Program, record: string, names: seq<string>, vs: seq<Ast.Value>, trace: Trace)
    requires |names| == |vs|
    ensures Constructed(LowerProgram(p), record, names, LowerValues(vs), trace) == LowerResult(Ast.Constructed(p, record, names, vs, trace))
  {
    match FindRecord(p.records, record)
    case None =>
    case Some(declared) => ArrangeLowers(declared, names, vs);
  }

  lemma UpdateLowers(p: Ast.Program, record: string, v: Ast.Value, names: seq<string>, vs: seq<Ast.Value>, trace: Trace)
    requires |names| == |vs|
    ensures Updated(LowerProgram(p), record, LowerValue(v), names, LowerValues(vs), trace)
         == LowerResult(Ast.Updated(p, record, v, names, vs, trace))
  {
    match FindRecord(p.records, record)
    case None =>
    case Some(declared) =>
      if v.Record? && |v.fields| == |declared| {
        ReplaceLowers(declared, v.fields, names, vs);
      }
  }

  lemma {:induction false} LowersDeconstruction(w: World, p: Ast.Program, n: nat, env: Ast.Environment, trace: Trace,
                      e: Ast.Expression)
    requires e.Deconstruction?
    ensures Lowered(w, p, n, env, trace, Lower(e)) == LowerResult(Ast.Eval(w, p, n, env, trace, e))
    decreases 2 * n + 1, e, 0
  {
    hide LowerEnvironment;
    Lowers(w, p, n, env, trace, e.argument);
  }

  // ----- Blocks and chains -----

  /** A block, from any statement on. */
  lemma {:induction false} LowersBlock(w: World, p: Ast.Program, n: nat, env: Ast.Environment, trace: Trace,
                      block: Ast.Block, i: nat)
    requires i <= |block.statements|
    ensures Lowered(w, p, n, env, trace, LowerBlock(block, i)) == LowerResult(Ast.EvalBlock(w, p, n, env, trace, block, i))
    decreases 2 * n + 1, block, |block.statements| - i + 1
  {
    hide LowerEnvironment, LowerValue, Ast.Eval, Lower;
    if i == |block.statements| {
      LowersLast(w, p, n, env, trace, block);
    } else {
      var s := block.statements[i];
      LowersStatement(w, p, n, env, trace, s);
      var o := Ast.EvalStatement(w, p, n, env, trace, s);
      if o.Value? {
        if s.name.Some? {
          ConsLowers(s.name.value, None, o.value, env);
        }
        LowersBlock(w, p, n, Ast.Bind(env, s.name, o.value), o.trace, block, i + 1);
      }
    }
  }

  lemma {:induction false} LowersLast(w: World, p: Ast.Program, n: nat, env: Ast.Environment, trace: Trace, block: Ast.Block)
    ensures Lowered(w, p, n, env, trace, LowerLast(block)) == LowerResult(Ast.EvalLast(w, p, n, env, trace, block))
    decreases 2 * n + 1, block, 0
  {
    hide Eval, Ast.Eval, Lower;
    match block
    case Block(_, expression) => Lowers(w, p, n, env, trace, expression);
  }

  lemma {:induction false} LowersStatement(w: World, p: Ast.Program, n: nat, env: Ast.Environment, trace: Trace, s: Ast.Statement)
    ensures Lowered(w, p, n, env, trace, LowerStatement(s)) == LowerResult(Ast.EvalStatement(w, p, n, env, trace, s))
    decreases 2 * n + 1, s, 0
  {
    hide Eval, Ast.Eval, Lower;
    match s
    case Statement(_, expression) => Lowers(w, p, n, env, trace, expression);
  }

  /** A chain of conditions, from any branch on. */
  lemma {:induction false} LowersChain(w: World, p: Ast.Program, n: nat, env: Ast.Environment, trace: Trace,
                      e: Ast.Expression, i: nat)
    requires e.If? && i <= |e.branches|
    ensures Lowered(w, p, n, env, trace, LowerIf(e, i)) == LowerResult(Ast.EvalIf(w, p, n, env, trace, e, i))
    decreases 2 * n + 1, e, 0, |e.branches| - i
  {
    hide LowerEnvironment, Ast.Eval, Lower;
    if i == |e.branches| {
      LowersBlock(w, p, n, env, trace, e.otherwise, 0);
    } else {
      var b := e.branches[i];
      LowersCondition(w, p, n, env, trace, b);
      var o := Ast.EvalCondition(w, p, n, env, trace, b);
      hide LowerCondition, Ast.EvalCondition;
      if o.Value? {
        LowersConsequence(w, p, n, env, o.trace, b);
        LowersChain(w, p, n, env, o.trace, e, i + 1);
      }
    }
  }

  lemma {:induction false} LowersCondition(w: World, p: Ast.Program, n: nat, env: Ast.Environment, trace: Trace, b: Ast.IfBranch)
    ensures Lowered(w, p, n, env, trace, LowerCondition(b)) == LowerResult(Ast.EvalCondition(w, p, n, env, trace, b))
    decreases 2 * n + 1, b, 0
  {
    hide Eval, Ast.Eval, Lower;
    match b
    case IfBranch(condition, _) => Lowers(w, p, n, env, trace, condition);
  }

  lemma {:induction false} LowersConsequence(w: World, p: Ast.Program, n: nat, env: Ast.Environment, trace: Trace,
                      b: Ast.IfBranch)
    ensures Lowered(w, p, n, env, trace, LowerConsequence(b)) == LowerResult(Ast.EvalConsequence(w, p, n, env, trace, b))
    decreases 2 * n + 1, b, 0
  {
    hide Eval, Ast.Eval, Lower;
    match b
    case IfBranch(_, block) => LowersBlock(w, p, n, env, trace, block, 0);
  }

  lemma {:induction false} LowersTypeBranch(w: World, p: Ast.Program, n: nat, env: Ast.Environment, trace: Trace,
                      name: string, v: Ast.Value, b: Ast.TypeBranch)
    ensures EvalBranch(w, LowerProgram(p), n, LowerEnvironment(env), trace, name, LowerValue(v), LowerTypeBranch(b))
         == LowerResult(Ast.EvalTypeBranch(w, p, n, env, trace, name, v, b))
    decreases 2 * n + 1, b, 0
  {
    hide Eval, Ast.Eval, Lower, LowerValue, LowerEnvironment;
    match b
    case TypeBranch(type_, block) =>
      ConsLowers(name, Some(type_), v, env);
      LowersBlock(w, p, n, [Ast.Binding(name, Some(type_), v)] + env, trace, block, 0);
  }

  lemma {:induction false} LowersIfType(w: World, p: Ast.Program, n: nat, env: Ast.Environment, trace: Trace, e: Ast.Expression)
    requires e.IfType?
    ensures Lowered(w, p, n, env, trace, Lower(e)) == LowerResult(Ast.Eval(w, p, n, env, trace, e))
    decreases 2 * n + 1, e, 0
  {
    hide LowerEnvironment, Ast.EvalTypeBranch, LowerTypeBranch;
    Lowers(w, p, n, env, trace, e.argument);
    var o := Ast.Eval(w, p, n, env, trace, e.argument);
    if o.Value? {
      SameType(o.value);
      var i := Ast.SelectBranch(e.typeBranches, Ast.TypeOf(o.value));
      SelectLowers(e.typeBranches, Ast.TypeOf(o.value));
      hide LowerValue;
      if i < |e.typeBranches| {
        TypeBranchLowers(e.typeBranches, i);
        LowersTypeBranch(w, p, n, env, o.trace, e.name, o.value, e.typeBranches[i]);
      } else if e.fallback.Some? {
        LowersDefault(w, p, n, env, o.trace, e.name, o.value, e.fallback.value);
        hide LowerBlock, Ast.EvalBlock;
        assert LowerFallback(e.fallback) == Some(Branch(None, LowerBlock(e.fallback.value, 0)));
        hide EvalBranch;
      }
    }
  }

  lemma {:induction false} LowersDefault(w: World, p: Ast.Program, n: nat, env: Ast.Environment, trace: Trace,
                      name: string, v: Ast.Value, block: Ast.Block)
    ensures EvalBranch(w, LowerProgram(p), n, LowerEnvironment(env), trace, name, LowerValue(v), Branch(None, LowerBlock(block, 0)))
         == LowerResult(Ast.EvalBlock(w, p, n, [Ast.Binding(name, None, v)] + env, trace, block, 0))
    decreases 2 * n + 1, block, |block.statements| + 2
  {
    hide Eval, Ast.EvalBlock, LowerBlock, LowerValue, LowerEnvironment;
    ConsLowers(name, None, v, env);
    LowersBlock(w, p, n, [Ast.Binding(name, None, v)] + env, trace, block, 0);
  }

  lemma LowersSimple(w: World, p: Ast.Program, n: nat, env: Ast.Environment, trace: Trace, e: Ast.Expression)
    requires e.Literal? || e.Lambda?
    ensures Lowered(w, p, n, env, trace, Lower(e)) == LowerResult(Ast.Eval(w, p, n, env, trace, e))
  {
  }

  lemma {:induction false} LowersIf(w: World, p: Ast.Program, n: nat, env: Ast.Environment, trace: Trace, e: Ast.Expression)
    requires e.If?
    ensures Lowered(w, p, n, env, trace, Lower(e)) == LowerResult(Ast.Eval(w, p, n, env, trace, e))
    decreases 2 * n + 1, e, 1
  {
    LowersChain(w, p, n, env, trace, e, 0);
    hide Eval, LowerIf, Ast.EvalIf, LowerEnvironment, LowerResult, Lowered;
  }

  /** A lowered expression does exactly what the expression does. */
  lemma {:induction false} Lowers(w: World, p: Ast.Program, n: nat, env: Ast.Environment, trace: Trace, e: Ast.Expression)
    ensures Lowered(w, p, n, env, trace, Lower(e)) == LowerResult(Ast.Eval(w, p, n, env, trace, e))
    decreases 2 * n + 1, e, 2
  {
    hide Eval, Ast.Eval, Lower, LowerEnvironment, LowerResult, Lowered;
    match e
    case Literal(_) => LowersSimple(w, p, n, env, trace, e);
    case Variable(_) => LowersVariable(w, p, n, env, trace, e);
    case Binary(_, _, _) => LowersBinary(w, p, n, env, trace, e);
    case Not(_) => LowersUnary(w, p, n, env, trace, e);
    case Try(_) => LowersUnary(w, p, n, env, trace, e);
    case Call(_, _) => LowersCall(w, p, n, env, trace, e);
    case If(_, _) => LowersIf(w, p, n, env, trace, e);
    case IfType(_, _, _, _) => LowersIfType(w, p, n, env, trace, e);
    case Lambda(_, _, _) => LowersSimple(w, p, n, env, trace, e);
    case RecordLiteral(_, _, _) => LowersRecord(w, p, n, env, trace, e);
    case Deconstruction(_, _) => LowersDeconstruction(w, p, n, env, trace, e);
  }
}
