/** Inferred types and inserted coercions do not change what an expression does. */
module Erasure {
  import opened Sums
  import opened Semantics
  import opened Hir

  /** An expression before types are inferred and coercions are inserted. */
  function Erase(e: Expression): Expression
    decreases e, 0
  {
    match e
    case Constant(base) => Constant(base)
    case Variable(name) => Variable(name)
    case If(condition, consequence, alternative) => If(Erase(condition), Erase(consequence), Erase(alternative))
    case Let(name, _, bound, body) => Let(name, None, Erase(bound), Erase(body))
    case Lambda(arguments, result, body) => Lambda(arguments, result, Erase(body))
    case Call(callee, operands) => Call(Erase(callee), EraseAll(operands))
    case IfType(name, argument, branches, otherwise) => IfType(name, Erase(argument), EraseBranches(branches), EraseElse(otherwise))
    case Coerce(_, _, argument) => Erase(argument)
    case Construct(record, fields) => Construct(record, EraseFields(fields))
    case Select(_, argument, field) => Select(None, Erase(argument), field)
    case Update(record, argument, fields) => Update(record, Erase(argument), EraseFields(fields))
    case Not(argument) => Not(Erase(argument))
    case And(left, right) => And(Erase(left), Erase(right))
    case Or(left, right) => Or(Erase(left), Erase(right))
    case Numeric(operator, left, right) => Numeric(operator, Erase(left), Erase(right))
    case NotEqual(left, right) => NotEqual(Erase(left), Erase(right))
    case Try(_, argument) => Try(None, Erase(argument))
  }

  function EraseAll(es: seq<Expression>): (r: seq<Expression>)
    ensures |r| == |es|
    decreases es, 0
  {
    if es == [] then [] else [Erase(es[0])] + EraseAll(es[1..])
  }

  function EraseBranches(branches: seq<Branch>): (r: seq<Branch>)
    ensures |r| == |branches|
    decreases branches, 0
  {
    if branches == [] then [] else [EraseBranch(branches[0], branches[0].annotation)] + EraseBranches(branches[1..])
  }

  function EraseBranch(branch: Branch, annotation: Option<Type>): Branch
    decreases branch, 0
  {
    match branch
    case Branch(_, body) => Branch(annotation, Erase(body))
  }

  /** The type of an else branch is inferred. */
  function EraseElse(otherwise: Option<Branch>): Option<Branch>
    decreases otherwise, 0
  {
    match otherwise
    case None => None
    case Some(branch) => Some(EraseBranch(branch, None))
  }

  function EraseFields(fields: seq<Field>): (r: seq<Field>)
    ensures |r| == |fields| && forall i :: 0 <= i < |fields| ==> r[i].name == fields[i].name
    decreases fields, 0
  {
    if fields == [] then []
    else
      assert forall i :: 0 < i < |fields| ==> fields[i] == fields[1..][i - 1];
      [EraseField(fields[0])] + EraseFields(fields[1..])
  }

  function EraseField(field: Field): (r: Field)
    ensures r.name == field.name
    decreases field, 0
  {
    match field
    case Field(name, expression) => Field(name, Erase(expression))
  }

  function EraseDefinitions(ds: seq<Definition>): (r: seq<Definition>)
    ensures |r| == |ds|
  {
    if ds == [] then []
    else [Definition(ds[0].name, ds[0].arguments, ds[0].result, Erase(ds[0].body))] + EraseDefinitions(ds[1..])
  }

  function EraseProgram(p: Program): Program {
    Program(p.records, p.foreigns, EraseDefinitions(p.functions))
  }

  // ----- Values -----

  /** Values that differ in the code of closures and in recorded types only. */
  ghost predicate Forgets(v: Value, u: Value)
    decreases v
  {
    match v
    case Plain(_) => u == v
    case Record(name, fields) =>
      u.Record? && u.name == name && |u.fields| == |fields| && forall i :: 0 <= i < |fields| ==> Forgets(fields[i], u.fields[i])
    case Closure(arguments, result, body, env) =>
      u.Closure? && u.arguments == arguments && u.result == result && u.body == Erase(body) && ForgetsAll(env, u.environment)
    case Foreign(_, _, _) => u == v
    case Collection(_, _) => u == v
  }

  ghost predicate ForgetsAll(env: Environment, env': Environment)
    decreases env
  {
    |env| == |env'| && forall i :: 0 <= i < |env| ==> ForgetsBinding(env[i], env'[i])
  }

  ghost predicate ForgetsBinding(b: Binding, b': Binding)
    decreases b
  {
    match b
    case Binding(name, _, value) => b'.name == name && Forgets(value, b'.value)
  }

  ghost predicate ForgetsValues(vs: seq<Value>, us: seq<Value>) {
    |vs| == |us| && forall i :: 0 <= i < |vs| ==> Forgets(vs[i], us[i])
  }

  ghost predicate Same(o: Result, o': Result) {
    match o
    case Value(v, trace) => o'.Value? && o'.trace == trace && Forgets(v, o'.value)
    case Return(v, trace) => o'.Return? && o'.trace == trace && Forgets(v, o'.returned)
    case Stuck => o'.Stuck?
    case Timeout => o'.Timeout?
  }

  ghost predicate SameAll(o: Results, o': Results) {
    match o
    case Value(vs, trace) => o'.Value? && o'.trace == trace && ForgetsValues(vs, o'.value)
    case Return(v, trace) => o'.Return? && o'.trace == trace && Forgets(v, o'.returned)
    case Stuck => o'.Stuck?
    case Timeout => o'.Timeout?
  }

  lemma SameType(v: Value, u: Value)
    requires Forgets(v, u)
    ensures TypeOf(v) == TypeOf(u)
  {
  }

  // ----- Environments -----

  lemma {:induction false} LookupForgets(env: Environment, env': Environment, name: string)
    requires ForgetsAll(env, env')
    ensures Lookup(env, name).Some? <==> Lookup(env', name).Some?
    ensures Lookup(env, name).Some? ==> Forgets(Lookup(env, name).value.value, Lookup(env', name).value.value)
  {
    if env != [] {
      assert ForgetsBinding(env[0], env'[0]);
      hide Forgets;
      forall i | 0 <= i < |env[1..]| ensures ForgetsBinding(env[1..][i], env'[1..][i]) {
        assert ForgetsBinding(env[i + 1], env'[i + 1]);
      }
      LookupForgets(env[1..], env'[1..], name);
    }
  }

  lemma {:induction false} FindErased(ds: seq<Definition>, name: string)
    ensures FindDefinition(EraseDefinitions(ds), name) ==
            match FindDefinition(ds, name)
            case None => None
            case Some(d) => Some(Definition(d.name, d.arguments, d.result, Erase(d.body)))
  {
    hide Erase;
    if ds != [] {
      FindErased(ds[1..], name);
      assert EraseDefinitions(ds)[1..] == EraseDefinitions(ds[1..]);
    }
  }

  lemma ConsForgets(name: string, s: Option<Type>, t: Option<Type>, v: Value, u: Value, env: Environment, env': Environment)
    requires Forgets(v, u) && ForgetsAll(env, env')
    ensures ForgetsAll([Binding(name, s, v)] + env, [Binding(name, t, u)] + env')
  {
    hide Forgets;
    var one, other := [Binding(name, s, v)] + env, [Binding(name, t, u)] + env';
    forall i | 0 <= i < |one| ensures ForgetsBinding(one[i], other[i]) {
      if i > 0 {
        assert ForgetsBinding(env[i - 1], env'[i - 1]);
      }
    }
  }

  lemma {:induction false} BindAllForgets(env: Environment, env': Environment, arguments: seq<Argument>,
                      vs: seq<Value>, us: seq<Value>)
    requires ForgetsAll(env, env') && |arguments| == |vs| && ForgetsValues(vs, us)
    ensures ForgetsAll(BindAll(env, arguments, vs), BindAll(env', arguments, us))
    decreases |arguments|
  {
    if arguments != [] {
      var a := arguments[0];
      assert Forgets(vs[0], us[0]);
      hide Forgets, ForgetsAll;
      ConsForgets(a.name, Some(a.type_), Some(a.type_), vs[0], us[0], env, env');
      forall i | 0 <= i < |vs[1..]| ensures Forgets(vs[1..][i], us[1..][i]) {
        assert Forgets(vs[i + 1], us[i + 1]);
      }
      BindAllForgets([Binding(a.name, Some(a.type_), vs[0])] + env, [Binding(a.name, Some(a.type_), us[0])] + env',
                     arguments[1..], vs[1..], us[1..]);
    }
  }

  lemma {:induction false} SelectErased(branches: seq<Branch>, concrete: Type)
    ensures SelectBranch(EraseBranches(branches), concrete) == SelectBranch(branches, concrete)
    decreases |branches|
  {
    hide Erase;
    if branches != [] {
      match branches[0] {
        case Branch(_, _) =>
          SelectErased(branches[1..], concrete);
          assert EraseBranches(branches)[1..] == EraseBranches(branches[1..]);
      }
    }
  }

  lemma {:induction false} BranchErased(branches: seq<Branch>, i: nat)
    requires i < |branches|
    ensures EraseBranches(branches)[i] == EraseBranch(branches[i], branches[i].annotation)
  {
    hide EraseBranch;
    if i > 0 {
      BranchErased(branches[1..], i - 1);
    }
  }

  // ----- Records -----

  lemma {:induction false} ArrangeForgets(declared: seq<FieldType>, names: seq<string>, vs: seq<Value>, us: seq<Value>)
    requires |names| == |vs| && ForgetsValues(vs, us)
    ensures var r, r' := Arrange(declared, names, vs), Arrange(declared, names, us);
            (r.Some? <==> r'.Some?) && (r.Some? ==> ForgetsValues(r.value, r'.value))
    decreases |declared|
  {
    hide Forgets;
    if declared != [] {
      ArrangeForgets(declared[1..], names, vs, us);
      var i := NameIndex(names, declared[0].name);
      var r, r' := Arrange(declared[1..], names, vs), Arrange(declared[1..], names, us);
      if i.Some? && r.Some? {
        ConsValues(vs[i.value], us[i.value], r.value, r'.value);
      }
    }
  }

  lemma ConsValues(v: Value, u: Value, vs: seq<Value>, us: seq<Value>)
    requires Forgets(v, u) && ForgetsValues(vs, us)
    ensures ForgetsValues([v] + vs, [u] + us)
  {
    hide Forgets;
  }

  lemma {:induction false} ReplaceForgets(declared: seq<FieldType>, old_: seq<Value>, oldU: seq<Value>,
                      names: seq<string>, vs: seq<Value>, us: seq<Value>)
    requires |names| == |vs| && ForgetsValues(vs, us) && ForgetsValues(old_, oldU) && |old_| == |declared|
    ensures var r, r' := Replace(declared, old_, names, vs), Replace(declared, oldU, names, us);
            (r.Some? <==> r'.Some?) && (r.Some? ==> ForgetsValues(r.value, r'.value))
    decreases |names|
  {
    hide Forgets;
    if names != [] && FieldIndex(declared, names[0]).Some? {
      var i := FieldIndex(declared, names[0]).value;
      ReplaceForgets(declared, old_[i := vs[0]], oldU[i := us[0]], names[1..], vs[1..], us[1..]);
    }
  }

  lemma ConstructForgets(p: Program, record: string, names: seq<string>, vs: seq<Value>, us: seq<Value>, trace: Trace)
    requires |names| == |vs| && ForgetsValues(vs, us)
    ensures Same(Constructed(p, record, names, vs, trace), Constructed(EraseProgram(p), record, names, us, trace))
  {
    match FindRecord(p.records, record)
    case None =>
    case Some(declared) => ArrangeForgets(declared, names, vs, us);
  }

  lemma UpdateForgets(p: Program, record: string, v: Value, u: Value, names: seq<string>, vs: seq<Value>,
                      us: seq<Value>, trace: Trace)
    requires |names| == |vs| && ForgetsValues(vs, us) && Forgets(v, u)
    ensures Same(Updated(p, record, v, names, vs, trace), Updated(EraseProgram(p), record, u, names, us, trace))
  {
    match FindRecord(p.records, record)
    case None =>
    case Some(declared) =>
      if v.Record? && |v.fields| == |declared| {
        assert ForgetsValues(v.fields, u.fields);
        ReplaceForgets(declared, v.fields, u.fields, names, vs, us);
      }
  }

  // ----- Simulation -----

  function Erased(w: World, p: Program, n: nat, env: Environment, trace: Trace, e: Expression): Result {
    Eval(w, EraseProgram(p), n, env, trace, Erase(e))
  }

  lemma ErasesVariable(w: World, p: Program, n: nat, env: Environment, env': Environment, trace: Trace, e: Expression)
    requires e.Variable? && ForgetsAll(env, env')
    ensures Same(Eval(w, p, n, env, trace, e), Erased(w, p, n, env', trace, e))
  {
    LookupForgets(env, env', e.name);
    FindErased(p.functions, e.name);
    var none: Environment := [];
    assert ForgetsAll(none, none);
  }

  lemma {:induction false} ErasesIf(w: World, p: Program, n: nat, env: Environment, env': Environment, trace: Trace,
                      e: Expression)
    requires e.If? && ForgetsAll(env, env')
    ensures Same(Eval(w, p, n, env, trace, e), Erased(w, p, n, env', trace, e))
    decreases 2 * n + 1, e, 0
  {
    hide ForgetsAll;
    Erases(w, p, n, env, env', trace, e.condition);
    var o := Eval(w, p, n, env, trace, e.condition);
    if o.Value? {
      Erases(w, p, n, env, env', o.trace, e.consequence);
      Erases(w, p, n, env, env', o.trace, e.alternative);
    }
  }

  lemma {:induction false} ErasesJunction(w: World, p: Program, n: nat, env: Environment, env': Environment,
                      trace: Trace, e: Expression)
    requires (e.And? || e.Or?) && ForgetsAll(env, env')
    ensures Same(Eval(w, p, n, env, trace, e), Erased(w, p, n, env', trace, e))
    decreases 2 * n + 1, e, 0
  {
    hide ForgetsAll;
    Erases(w, p, n, env, env', trace, e.left);
    var o := Eval(w, p, n, env, trace, e.left);
    if o.Value? {
      Erases(w, p, n, env, env', o.trace, e.right);
    }
  }

  lemma {:induction false} ErasesUnary(w: World, p: Program, n: nat, env: Environment, env': Environment, trace: Trace,
                      e: Expression)
    requires (e.Not? || e.Try?) && ForgetsAll(env, env')
    ensures Same(Eval(w, p, n, env, trace, e), Erased(w, p, n, env', trace, e))
    decreases 2 * n + 1, e, 0
  {
    hide ForgetsAll;
    Erases(w, p, n, env, env', trace, e.argument);
    var o, o' := Eval(w, p, n, env, trace, e.argument), Erased(w, p, n, env', trace, e.argument);
    if o.Value? {
      SameType(o.value, o'.value);
    }
  }

  lemma {:induction false} ErasesNumeric(w: World, p: Program, n: nat, env: Environment, env': Environment,
                      trace: Trace, e: Expression)
    requires (e.Numeric? || e.NotEqual?) && ForgetsAll(env, env')
    ensures Same(Eval(w, p, n, env, trace, e), Erased(w, p, n, env', trace, e))
    decreases 2 * n + 1, e, 0
  {
    hide ForgetsAll;
    Erases(w, p, n, env, env', trace, e.left);
    var o := Eval(w, p, n, env, trace, e.left);
    if o.Value? {
      Erases(w, p, n, env, env', o.trace, e.right);
    }
  }

  lemma {:induction false} ErasesLet(w: World, p: Program, n: nat, env: Environment, env': Environment, trace: Trace,
                      e: Expression)
    requires e.Let? && ForgetsAll(env, env')
    ensures Same(Eval(w, p, n, env, trace, e), Erased(w, p, n, env', trace, e))
    decreases 2 * n + 1, e, 0
  {
    hide ForgetsAll, Forgets;
    Erases(w, p, n, env, env', trace, e.bound);
    var o, o' := Eval(w, p, n, env, trace, e.bound), Erased(w, p, n, env', trace, e.bound);
    if o.Value? {
      if e.bound_name.Some? {
        ConsForgets(e.bound_name.value, e.annotation, None, o.value, o'.value, env, env');
      }
      Erases(w, p, n, Bind(env, e.bound_name, e.annotation, o.value), Bind(env', e.bound_name, None, o'.value), o.trace, e.body);
    }
  }

  lemma {:induction false} ErasesAll(w: World, p: Program, n: nat, env: Environment, env': Environment, trace: Trace,
                      es: seq<Expression>)
    requires ForgetsAll(env, env')
    ensures SameAll(EvalAll(w, p, n, env, trace, es), EvalAll(w, EraseProgram(p), n, env', trace, EraseAll(es)))
    decreases 2 * n + 1, es, 0
  {
    hide ForgetsAll, Forgets;
    if es != [] {
      Erases(w, p, n, env, env', trace, es[0]);
      var o, o' := Eval(w, p, n, env, trace, es[0]), Erased(w, p, n, env', trace, es[0]);
      assert EraseAll(es)[1..] == EraseAll(es[1..]);
      if o.Value? {
        ErasesAll(w, p, n, env, env', o.trace, es[1..]);
        var os, os' := EvalAll(w, p, n, env, o.trace, es[1..]), EvalAll(w, EraseProgram(p), n, env', o.trace, EraseAll(es[1..]));
        hide Eval, Erase;
        if os.Value? {
          ConsValues(o.value, o'.value, os.value, os'.value);
        }
      }
    }
  }

  lemma {:induction false} ErasesFields(w: World, p: Program, n: nat, env: Environment, env': Environment,
                      trace: Trace, fields: seq<Field>)
    requires ForgetsAll(env, env')
    ensures SameAll(EvalFields(w, p, n, env, trace, fields), EvalFields(w, EraseProgram(p), n, env', trace, EraseFields(fields)))
    decreases 2 * n + 1, fields, 0
  {
    hide ForgetsAll, Forgets, Eval;
    if fields != [] {
      ErasesField(w, p, n, env, env', trace, fields[0]);
      var o, o' := EvalField(w, p, n, env, trace, fields[0]), EvalField(w, EraseProgram(p), n, env', trace, EraseField(fields[0]));
      assert EraseFields(fields)[1..] == EraseFields(fields[1..]);
      hide EvalField, EraseField;
      if o.Value? {
        ErasesFields(w, p, n, env, env', o.trace, fields[1..]);
        var os, os' := EvalFields(w, p, n, env, o.trace, fields[1..]),
                       EvalFields(w, EraseProgram(p), n, env', o.trace, EraseFields(fields[1..]));
        if os.Value? {
          ConsValues(o.value, o'.value, os.value, os'.value);
        }
      }
    }
  }

  lemma {:induction false} ErasesField(w: World, p: Program, n: nat, env: Environment, env': Environment, trace: Trace,
                      field: Field)
    requires ForgetsAll(env, env')
    ensures Same(EvalField(w, p, n, env, trace, field), EvalField(w, EraseProgram(p), n, env', trace, EraseField(field)))
    decreases 2 * n + 1, field, 0
  {
    hide Eval, Erase;
    match field
    case Field(_, expression) => Erases(w, p, n, env, env', trace, expression);
  }

  lemma {:induction false} ErasesApply(w: World, p: Program, n: nat, f: Value, g: Value, vs: seq<Value>,
                      us: seq<Value>, trace: Trace)
    requires Forgets(f, g) && ForgetsValues(vs, us)
    ensures Same(Apply(w, p, n, f, vs, trace), Apply(w, EraseProgram(p), n, g, us, trace))
    decreases 2 * n
  {
    hide Eval;
    match f
    case Closure(arguments, _, body, env) =>
      if |arguments| == |vs| && n > 0 {
        BindAllForgets(env, g.environment, arguments, vs, us);
        hide Forgets, ForgetsAll, Erase;
        Erases(w, p, n - 1, BindAll(env, arguments, vs), BindAll(g.environment, arguments, us), trace, body);
      }
    case Foreign(name, types, result) =>
      assert forall i :: 0 <= i < |vs| ==> (vs[i].Plain? <==> us[i].Plain?) && (vs[i].Plain? ==> vs[i] == us[i]);
      if AllPlain(vs) {
        assert Bases(vs) == Bases(us);
      }
    case _ =>
  }

  lemma {:induction false} ErasesCall(w: World, p: Program, n: nat, env: Environment, env': Environment, trace: Trace,
                      e: Expression)
    requires e.Call? && ForgetsAll(env, env')
    ensures Same(Eval(w, p, n, env, trace, e), Erased(w, p, n, env', trace, e))
    decreases 2 * n + 1, e, 0
  {
    hide ForgetsAll, Forgets;
    Erases(w, p, n, env, env', trace, e.callee);
    var o, o' := Eval(w, p, n, env, trace, e.callee), Erased(w, p, n, env', trace, e.callee);
    if o.Value? {
      ErasesAll(w, p, n, env, env', o.trace, e.operands);
      var os, os' := EvalAll(w, p, n, env, o.trace, e.operands), EvalAll(w, EraseProgram(p), n, env', o.trace, EraseAll(e.operands));
      if os.Value? {
        ErasesApply(w, p, n, o.value, o'.value, os.value, os'.value, os.trace);
      }
    }
  }

  lemma {:induction false} ErasesRecord(w: World, p: Program, n: nat, env: Environment, env': Environment,
                      trace: Trace, e: Expression)
    requires (e.Construct? || e.Update?) && ForgetsAll(env, env')
    ensures Same(Eval(w, p, n, env, trace, e), Erased(w, p, n, env', trace, e))
    decreases 2 * n + 1, e, 0
  {
    hide ForgetsAll, Forgets, Constructed, Updated;
    assert FieldNames(EraseFields(e.fields)) == FieldNames(e.fields);
    if e.Construct? {
      ErasesFields(w, p, n, env, env', trace, e.fields);
      var os, os' := EvalFields(w, p, n, env, trace, e.fields), EvalFields(w, EraseProgram(p), n, env', trace, EraseFields(e.fields));
      if os.Value? {
        ConstructForgets(p, e.record, FieldNames(e.fields), os.value, os'.value, os.trace);
      }
    } else {
      Erases(w, p, n, env, env', trace, e.argument);
      var o, o' := Eval(w, p, n, env, trace, e.argument), Erased(w, p, n, env', trace, e.argument);
      if o.Value? {
        ErasesFields(w, p, n, env, env', o.trace, e.fields);
        var os, os' := EvalFields(w, p, n, env, o.trace, e.fields), EvalFields(w, EraseProgram(p), n, env', o.trace, EraseFields(e.fields));
        if os.Value? {
          UpdateForgets(p, e.record, o.value, o'.value, FieldNames(e.fields), os.value, os'.value, os.trace);
        }
      }
    }
  }

  lemma {:induction false} ErasesSelect(w: World, p: Program, n: nat, env: Environment, env': Environment,
                      trace: Trace, e: Expression)
    requires (e.Select? || e.Coerce?) && ForgetsAll(env, env')
    ensures Same(Eval(w, p, n, env, trace, e), Erased(w, p, n, env', trace, e))
    decreases 2 * n + 1, e, 0
  {
    hide ForgetsAll;
    Erases(w, p, n, env, env', trace, e.argument);
  }

  lemma {:induction false} ErasesBranch(w: World, p: Program, n: nat, env: Environment, env': Environment,
                      trace: Trace, name: string,
                     v: Value, u: Value, branch: Branch, annotation: Option<Type>)
    requires ForgetsAll(env, env') && Forgets(v, u)
    ensures Same(EvalBranch(w, p, n, env, trace, name, v, branch),
                 EvalBranch(w, EraseProgram(p), n, env', trace, name, u, EraseBranch(branch, annotation)))
    decreases 2 * n + 1, branch, 0
  {
    hide Eval, Erase, Forgets, ForgetsAll;
    match branch
    case Branch(t, body) =>
      ConsForgets(name, t, annotation, v, u, env, env');
      Erases(w, p, n, [Binding(name, t, v)] + env, [Binding(name, annotation, u)] + env', trace, body);
  }

  lemma {:induction false} ErasesIfType(w: World, p: Program, n: nat, env: Environment, env': Environment,
                      trace: Trace, e: Expression)
    requires e.IfType? && ForgetsAll(env, env')
    ensures Same(Eval(w, p, n, env, trace, e), Erased(w, p, n, env', trace, e))
    decreases 2 * n + 1, e, 0
  {
    hide ForgetsAll, EvalBranch, EraseBranch;
    Erases(w, p, n, env, env', trace, e.argument);
    var o, o' := Eval(w, p, n, env, trace, e.argument), Erased(w, p, n, env', trace, e.argument);
    if o.Value? {
      SameType(o.value, o'.value);
      hide Forgets;
      SelectErased(e.branches, TypeOf(o.value));
      var i := SelectBranch(e.branches, TypeOf(o.value));
      if i < |e.branches| {
        BranchErased(e.branches, i);
        ErasesBranch(w, p, n, env, env', o.trace, e.name, o.value, o'.value, e.branches[i], e.branches[i].annotation);
      } else if e.otherwise.Some? {
        assert EraseElse(e.otherwise) == Some(EraseBranch(e.otherwise.value, None));
        ErasesBranch(w, p, n, env, env', o.trace, e.name, o.value, o'.value, e.otherwise.value, None);
      } else {
        assert EraseElse(e.otherwise) == None;
      }
    }
  }

  lemma ErasesSimple(w: World, p: Program, n: nat, env: Environment, env': Environment, trace: Trace, e: Expression)
    requires (e.Constant? || e.Lambda?) && ForgetsAll(env, env')
    ensures Same(Eval(w, p, n, env, trace, e), Erased(w, p, n, env', trace, e))
  {
  }

  /** An expression does what it did before types were inferred and coercions were inserted. */
  lemma {:induction false} Erases(w: World, p: Program, n: nat, env: Environment, env': Environment, trace: Trace, e: Expression)
    requires ForgetsAll(env, env')
    ensures Same(Eval(w, p, n, env, trace, e), Erased(w, p, n, env', trace, e))
    decreases 2 * n + 1, e, 1
  {
    hide Eval, Erase, Erased, Same, Forgets, ForgetsAll;
    match e
    case Constant(_) => ErasesSimple(w, p, n, env, env', trace, e);
    case Variable(_) => ErasesVariable(w, p, n, env, env', trace, e);
    case If(_, _, _) => ErasesIf(w, p, n, env, env', trace, e);
    case Let(_, _, _, _) => ErasesLet(w, p, n, env, env', trace, e);
    case Lambda(_, _, _) => ErasesSimple(w, p, n, env, env', trace, e);
    case Call(_, _) => ErasesCall(w, p, n, env, env', trace, e);
    case IfType(_, _, _, _) => ErasesIfType(w, p, n, env, env', trace, e);
    case Coerce(_, _, _) => ErasesSelect(w, p, n, env, env', trace, e);
    case Construct(_, _) => ErasesRecord(w, p, n, env, env', trace, e);
    case Select(_, _, _) => ErasesSelect(w, p, n, env, env', trace, e);
    case Update(_, _, _) => ErasesRecord(w, p, n, env, env', trace, e);
    case Not(_) => ErasesUnary(w, p, n, env, env', trace, e);
    case And(_, _) => ErasesJunction(w, p, n, env, env', trace, e);
    case Or(_, _) => ErasesJunction(w, p, n, env, env', trace, e);
    case Numeric(_, _, _) => ErasesNumeric(w, p, n, env, env', trace, e);
    case NotEqual(_, _) => ErasesNumeric(w, p, n, env, env', trace, e);
    case Try(_, _) => ErasesUnary(w, p, n, env, env', trace, e);
  }
}
