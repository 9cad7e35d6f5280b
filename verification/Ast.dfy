/** The source language: blocks of statements, chains of conditions, and errors that are passed on with `?`. */
module Ast {
  import opened Sums
  import opened Semantics
  import Hir

  datatype BinaryOperator = Conjunction | Disjunction | Difference | Calculation(operator: NumericOperator)

  datatype Expression =
    | Literal(base: Base)
    | Variable(name: string)
    | Binary(operator: BinaryOperator, left: Expression, right: Expression)
    | Not(operand: Expression)
    | Try(operand: Expression)
    | Call(callee: Expression, operands: seq<Expression>)
    | If(branches: seq<IfBranch>, otherwise: Block)
    | IfType(name: string, argument: Expression, typeBranches: seq<TypeBranch>, fallback: Option<Block>)
    | Lambda(arguments: seq<Hir.Argument>, result: Hir.Type, body: Block)
    | RecordLiteral(record: string, base_record: Option<Expression>, fields: seq<Field>)
    | Deconstruction(argument: Expression, field: string)

  datatype IfBranch = IfBranch(condition: Expression, block: Block)
  datatype TypeBranch = TypeBranch(type_: Hir.Type, block: Block)
  datatype Field = Field(name: string, expression: Expression)
  datatype Statement = Statement(name: Option<string>, expression: Expression)
  datatype Block = Block(statements: seq<Statement>, expression: Expression)

  datatype Definition = Definition(name: string, arguments: seq<Hir.Argument>, result: Hir.Type, body: Block)
  datatype ForeignImport = ForeignImport(name: string, types: seq<Hir.Type>, result: Hir.Type)
  datatype Program = Program(records: seq<Hir.Declaration>, imports: seq<ForeignImport>, functions: seq<Definition>)

  // ----- Values -----

  datatype Value =
    | Plain(base: Base)
    | Record(name: string, fields: seq<Value>)
    | Closure(arguments: seq<Hir.Argument>, result: Hir.Type, body: Block, environment: seq<Binding>)
    | Foreign(name: string, types: seq<Hir.Type>, result: Hir.Type)
    | Collection(type_: Hir.Type, contents: int)

  datatype Binding = Binding(name: string, annotation: Option<Hir.Type>, value: Value)

  type Environment = seq<Binding>
  type Result = Outcome<Value, Value>
  type Results = Outcome<seq<Value>, Value>

  function TypeOf(v: Value): Hir.Type {
    match v
    case Plain(base) => Hir.BaseType(base)
    case Record(name, _) => Hir.RecordType(name)
    case Closure(arguments, result, _, _) => Hir.FunctionType(Hir.ArgumentTypes(arguments), result)
    case Foreign(_, types, result) => Hir.FunctionType(types, result)
    case Collection(type_, _) => type_
  }

  function Lookup(env: Environment, name: string): Option<Value> {
    if env == [] then None
    else if env[0].name == name then Some(env[0].value)
    else Lookup(env[1..], name)
  }

  function FindDefinition(functions: seq<Definition>, name: string): Option<Definition> {
    if functions == [] then None
    else if functions[0].name == name then Some(functions[0])
    else FindDefinition(functions[1..], name)
  }

  function FindImport(imports: seq<ForeignImport>, name: string): Option<ForeignImport> {
    if imports == [] then None
    else if imports[0].name == name then Some(imports[0])
    else FindImport(imports[1..], name)
  }

  function Resolve(p: Program, env: Environment, name: string): Option<Value> {
    match Lookup(env, name)
    case Some(v) => Some(v)
    case None =>
      match FindDefinition(p.functions, name)
      case Some(d) => Some(Closure(d.arguments, d.result, d.body, []))
      case None =>
        match FindImport(p.imports, name)
        case Some(d) => Some(Foreign(d.name, d.types, d.result))
        case None => None
  }

  function Bind(env: Environment, name: Option<string>, v: Value): Environment {
    if name.Some? then [Binding(name.value, None, v)] + env else env
  }

  function BindAll(env: Environment, arguments: seq<Hir.Argument>, values: seq<Value>): Environment
    requires |arguments| == |values|
    decreases |arguments|
  {
    if arguments == [] then env
    else BindAll([Binding(arguments[0].name, Some(arguments[0].type_), values[0])] + env, arguments[1..], values[1..])
  }

  predicate AllPlain(values: seq<Value>) {
    forall i :: 0 <= i < |values| ==> values[i].Plain?
  }

  function Bases(values: seq<Value>): (r: seq<Base>)
    requires AllPlain(values)
    ensures |r| == |values|
  {
    seq(|values|, i requires 0 <= i < |values| => values[i].base)
  }

  function CallForeign(w: World, name: string, result: Hir.Type, values: seq<Value>, trace: Trace): Result {
    if !AllPlain(values) || !Hir.IsBaseType(result) then Stuck
    else
      var response := Hir.Respond(w, name, Bases(values), trace, result);
      Value(Plain(response), trace + [Event(name, Bases(values), response)])
  }

  function SelectBranch(branches: seq<TypeBranch>, concrete: Hir.Type): (r: nat)
    ensures r <= |branches|
  {
    if branches == [] then 0
    else if Hir.Accepts(branches[0].type_, concrete) then 0
    else 1 + SelectBranch(branches[1..], concrete)
  }

  function FieldNames(fields: seq<Field>): (r: seq<string>)
    ensures |r| == |fields|
  {
    seq(|fields|, i requires 0 <= i < |fields| => fields[i].name)
  }

  // ----- Evaluation -----

  function Eval(w: World, p: Program, n: nat, env: Environment, trace: Trace, e: Expression): Result
    decreases 2 * n + 1, e, 0
  {
    match e
    case Literal(base) => Value(Plain(base), trace)
    case Variable(name) =>
      (match Resolve(p, env, name)
       case None => Stuck
       case Some(v) => Value(v, trace))
    case Binary(operator, left, right) =>
      (match Eval(w, p, n, env, trace, left)
       case Value(a, trace) =>
         if Decides(operator, a) then Value(a, trace)
         else if (operator.Conjunction? || operator.Disjunction?) && !IsBoolean(a) then Stuck
         else
           (match Eval(w, p, n, env, trace, right)
            case Value(b, trace) => Operated(w, operator, a, b, trace)
            case o => o)
       case o => o)
    case Not(operand) =>
      (match Eval(w, p, n, env, trace, operand)
       case Value(Plain(Boolean(b)), trace) => Value(Plain(Boolean(!b)), trace)
       case Value(_, _) => Stuck
       case o => o)
    case Try(operand) =>
      (match Eval(w, p, n, env, trace, operand)
       case Value(v, trace) => if TypeOf(v) == Hir.ErrorType then Return(v, trace) else Value(v, trace)
       case o => o)
    case Call(callee, operands) =>
      (match Eval(w, p, n, env, trace, callee)
       case Value(f, trace) =>
         (match EvalAll(w, p, n, env, trace, operands)
          case Value(values, trace) => Apply(w, p, n, f, values, trace)
          case o => Fail(o))
       case o => o)
    case If(_, _) => EvalIf(w, p, n, env, trace, e, 0)
    case IfType(name, argument, branches, fallback) =>
      (match Eval(w, p, n, env, trace, argument)
       case Value(v, trace) =>
         var i := SelectBranch(branches, TypeOf(v));
         if i < |branches| then EvalTypeBranch(w, p, n, env, trace, name, v, branches[i])
         else if fallback.Some? then EvalBlock(w, p, n, [Binding(name, None, v)] + env, trace, fallback.value, 0)
         else Stuck
       case o => o)
    case Lambda(arguments, result, body) => Value(Closure(arguments, result, body, env), trace)
    case RecordLiteral(record, None, fields) =>
      (match EvalFields(w, p, n, env, trace, fields)
       case Value(values, trace) => Constructed(p, record, FieldNames(fields), values, trace)
       case o => Fail(o))
    case RecordLiteral(record, Some(base), fields) =>
      (match Eval(w, p, n, env, trace, base)
       case Value(v, trace) =>
         (match EvalFields(w, p, n, env, trace, fields)
          case Value(values, trace) => Updated(p, record, v, FieldNames(fields), values, trace)
          case o => Fail(o))
       case o => o)
    case Deconstruction(argument, field) =>
      (match Eval(w, p, n, env, trace, argument)
       case Value(v, trace) => Selected(p, v, field, trace)
       case o => o)
  }

  predicate IsBoolean(v: Value) {
    v.Plain? && v.base.Boolean?
  }

  /** Whether the left operand decides a Boolean operation, so that the right one is not evaluated. */
  predicate Decides(operator: BinaryOperator, a: Value) {
    || (operator.Conjunction? && a == Plain(Boolean(false)))
    || (operator.Disjunction? && a == Plain(Boolean(true)))
  }

  function Operated(w: World, operator: BinaryOperator, a: Value, b: Value, trace: Trace): Result {
    match operator
    case Conjunction => Value(b, trace)
    case Disjunction => Value(b, trace)
    case Difference =>
      if a.Plain? && a.base.Number? && b.Plain? && b.base.Number? then
        Value(Plain(Boolean(!w.compare(Equal, a.base.number, b.base.number))), trace)
      else Stuck
    case Calculation(operator) =>
      if a.Plain? && a.base.Number? && b.Plain? && b.base.Number? then
        Value(Plain(Operate(w, operator, a.base.number, b.base.number)), trace)
      else Stuck
  }

  /** The statements of a block one after the other, from the given one, and then its expression. */
  function EvalBlock(w: World, p: Program, n: nat, env: Environment, trace: Trace, block: Block, i: nat): Result
    requires i <= |block.statements|
    decreases 2 * n + 1, block, |block.statements| - i + 1
  {
    if i == |block.statements| then EvalLast(w, p, n, env, trace, block)
    else
      match EvalStatement(w, p, n, env, trace, block.statements[i])
      case Value(v, trace) => EvalBlock(w, p, n, Bind(env, block.statements[i].name, v), trace, block, i + 1)
      case o => o
  }

  function EvalLast(w: World, p: Program, n: nat, env: Environment, trace: Trace, block: Block): Result
    decreases 2 * n + 1, block, 0
  {
    match block
    case Block(_, expression) => Eval(w, p, n, env, trace, expression)
  }

  function EvalStatement(w: World, p: Program, n: nat, env: Environment, trace: Trace, statement: Statement): Result
    decreases 2 * n + 1, statement, 0
  {
    match statement
    case Statement(_, expression) => Eval(w, p, n, env, trace, expression)
  }

  /** The first branch of which the condition holds, from the given one, or the else block. */
  function EvalIf(w: World, p: Program, n: nat, env: Environment, trace: Trace, e: Expression, i: nat): Result
    requires e.If? && i <= |e.branches|
    decreases 2 * n + 1, e, 0, |e.branches| - i
  {
    if i == |e.branches| then EvalBlock(w, p, n, env, trace, e.otherwise, 0)
    else
      match EvalCondition(w, p, n, env, trace, e.branches[i])
      case Value(Plain(Boolean(b)), trace) =>
        if b then EvalConsequence(w, p, n, env, trace, e.branches[i]) else EvalIf(w, p, n, env, trace, e, i + 1)
      case Value(_, _) => Stuck
      case o => o
  }

  function EvalCondition(w: World, p: Program, n: nat, env: Environment, trace: Trace, branch: IfBranch): Result
    decreases 2 * n + 1, branch, 0
  {
    match branch
    case IfBranch(condition, _) => Eval(w, p, n, env, trace, condition)
  }

  function EvalConsequence(w: World, p: Program, n: nat, env: Environment, trace: Trace, branch: IfBranch): Result
    decreases 2 * n + 1, branch, 0
  {
    match branch
    case IfBranch(_, block) => EvalBlock(w, p, n, env, trace, block, 0)
  }

  function EvalTypeBranch(w: World, p: Program, n: nat, env: Environment, trace: Trace, name: string, v: Value,
                      branch: TypeBranch): Result
    decreases 2 * n + 1, branch, 0
  {
    match branch
    case TypeBranch(type_, block) => EvalBlock(w, p, n, [Binding(name, Some(type_), v)] + env, trace, block, 0)
  }

  function EvalAll(w: World, p: Program, n: nat, env: Environment, trace: Trace, es: seq<Expression>): (r: Results)
    ensures r.Value? ==> |r.value| == |es|
    decreases 2 * n + 1, es, 0
  {
    if es == [] then Value([], trace)
    else
      match Eval(w, p, n, env, trace, es[0])
      case Value(v, trace) =>
        (match EvalAll(w, p, n, env, trace, es[1..])
         case Value(vs, trace) => Value([v] + vs, trace)
         case o => o)
      case o => Fail(o)
  }

  function EvalFields(w: World, p: Program, n: nat, env: Environment, trace: Trace, fields: seq<Field>): (r: Results)
    ensures r.Value? ==> |r.value| == |fields|
    decreases 2 * n + 1, fields, 0
  {
    if fields == [] then Value([], trace)
    else
      match EvalField(w, p, n, env, trace, fields[0])
      case Value(v, trace) =>
        (match EvalFields(w, p, n, env, trace, fields[1..])
         case Value(vs, trace) => Value([v] + vs, trace)
         case o => o)
      case o => Fail(o)
  }

  function EvalField(w: World, p: Program, n: nat, env: Environment, trace: Trace, field: Field): Result
    decreases 2 * n + 1, field, 0
  {
    match field
    case Field(_, expression) => Eval(w, p, n, env, trace, expression)
  }

  function Apply(w: World, p: Program, n: nat, f: Value, values: seq<Value>, trace: Trace): Result
    decreases 2 * n
  {
    match f
    case Closure(arguments, _, body, env) =>
      if |arguments| != |values| then Stuck
      else if n == 0 then Timeout
      else EndCall(EvalBlock(w, p, n - 1, BindAll(env, arguments, values), trace, body, 0))
    case Foreign(name, types, result) => if |types| != |values| then Stuck else CallForeign(w, name, result, values, trace)
    case _ => Stuck
  }

  function Constructed(p: Program, record: string, names: seq<string>, values: seq<Value>, trace: Trace): Result
    requires |names| == |values|
  {
    match Hir.FindRecord(p.records, record)
    case None => Stuck
    case Some(declared) =>
      match Hir.Arrange(declared, names, values)
      case None => Stuck
      case Some(arranged) => Value(Record(record, arranged), trace)
  }

  function Selected(p: Program, v: Value, field: string, trace: Trace): Result {
    if !v.Record? then Stuck
    else
      match Hir.FindRecord(p.records, v.name)
      case None => Stuck
      case Some(declared) =>
        match Hir.FieldIndex(declared, field)
        case None => Stuck
        case Some(i) => if i < |v.fields| then Value(v.fields[i], trace) else Stuck
  }

  function Updated(p: Program, record: string, v: Value, names: seq<string>, values: seq<Value>, trace: Trace): Result
    requires |names| == |values|
  {
    match Hir.FindRecord(p.records, record)
    case None => Stuck
    case Some(declared) =>
      if !v.Record? || v.name != record || |v.fields| != |declared| then Stuck
      else
        match Hir.Replace(declared, v.fields, names, values)
        case None => Stuck
        case Some(replaced) => Value(Record(record, replaced), trace)
  }
}
