/** The high-level intermediate representation: explicitly coerced expressions, their types and their meaning. */
module Hir {
  import opened Sums
  import opened Semantics

  datatype Type =
    | NoneType | BooleanType | NumberType | StringType | ErrorType
    | RecordType(name: string)
    | FunctionType(arguments: seq<Type>, result: Type)
    | ListType(element: Type)
    | MapType(key: Type, value: Type)
    | UnionType(members: seq<Type>)
    | AnyType

  datatype Argument = Argument(name: string, type_: Type)

  datatype Expression =
    | Constant(base: Base)
    | Variable(name: string)
    | If(condition: Expression, consequence: Expression, alternative: Expression)
    | Let(bound_name: Option<string>, annotation: Option<Type>, bound: Expression, body: Expression)
    | Lambda(arguments: seq<Argument>, result: Type, body: Expression)
    | Call(callee: Expression, operands: seq<Expression>)
    | IfType(name: string, argument: Expression, branches: seq<Branch>, otherwise: Option<Branch>)
    | Coerce(from: Type, to: Type, argument: Expression)
    | Construct(record: string, fields: seq<Field>)
    | Select(record_name: Option<string>, argument: Expression, field: string)
    | Update(record: string, argument: Expression, fields: seq<Field>)
    | Not(argument: Expression)
    | And(left: Expression, right: Expression)
    | Or(left: Expression, right: Expression)
    | Numeric(operator: NumericOperator, left: Expression, right: Expression)
    | NotEqual(left: Expression, right: Expression)
    | Try(annotation: Option<Type>, argument: Expression)

  /** A branch of a type test; an else branch has a type once types have been inferred. */
  datatype Branch = Branch(annotation: Option<Type>, body: Expression)

  datatype Field = Field(name: string, expression: Expression)

  datatype FieldType = FieldType(name: string, type_: Type)
  datatype Definition = Definition(name: string, arguments: seq<Argument>, result: Type, body: Expression)
  datatype Declaration = Declaration(name: string, fields: seq<FieldType>)
  /** A function of a foreign language, and what it is called there. */
  datatype ForeignDeclaration = ForeignDeclaration(name: string, foreignName: string, types: seq<Type>, result: Type)

  datatype Program = Program(records: seq<Declaration>, foreigns: seq<ForeignDeclaration>, functions: seq<Definition>)

  // ----- Values -----

  datatype Value =
    | Plain(base: Base)
    | Record(name: string, fields: seq<Value>)
    | Closure(arguments: seq<Argument>, result: Type, body: Expression, environment: seq<Binding>)
    | Foreign(name: string, types: seq<Type>, result: Type)
    | Collection(type_: Type, contents: int)     // a list or a map

  datatype Binding = Binding(name: string, annotation: Option<Type>, value: Value)

  type Environment = seq<Binding>

  function BaseType(base: Base): Type {
    match base
    case None_ => NoneType
    case Boolean(_) => BooleanType
    case Number(_) => NumberType
    case String(_) => StringType
    case Error(_) => ErrorType
  }

  function ArgumentTypes(arguments: seq<Argument>): (r: seq<Type>)
    ensures |r| == |arguments|
  {
    seq(|arguments|, i requires 0 <= i < |arguments| => arguments[i].type_)
  }

  /** Every value knows its own type. */
  function TypeOf(v: Value): Type {
    match v
    case Plain(base) => BaseType(base)
    case Record(name, _) => RecordType(name)
    case Closure(arguments, result, _, _) => FunctionType(ArgumentTypes(arguments), result)
    case Foreign(_, types, result) => FunctionType(types, result)
    case Collection(type_, _) => type_
  }

  predicate IsVariant(t: Type) {
    t.AnyType? || t.UnionType?
  }

  function Members(t: Type): seq<Type> {
    if t.UnionType? then t.members else [t]
  }

  /** Whether values of a concrete type belong to a type. */
  predicate Accepts(t: Type, concrete: Type) {
    t.AnyType? || concrete in Members(t)
  }

  // ----- Lookup -----

  function Lookup(env: Environment, name: string): Option<Binding> {
    if env == [] then None
    else if env[0].name == name then Some(env[0])
    else Lookup(env[1..], name)
  }

  function FindDefinition(functions: seq<Definition>, name: string): Option<Definition> {
    if functions == [] then None
    else if functions[0].name == name then Some(functions[0])
    else FindDefinition(functions[1..], name)
  }

  function FindForeign(foreigns: seq<ForeignDeclaration>, name: string): (r: Option<ForeignDeclaration>)
    ensures r.Some? ==> r.value in foreigns && r.value.name == name
  {
    if foreigns == [] then None
    else if foreigns[0].name == name then Some(foreigns[0])
    else FindForeign(foreigns[1..], name)
  }

  function FindRecord(records: seq<Declaration>, name: string): Option<seq<FieldType>> {
    if records == [] then None
    else if records[0].name == name then Some(records[0].fields)
    else FindRecord(records[1..], name)
  }

  function FieldIndex(fields: seq<FieldType>, name: string): (r: Option<nat>)
    ensures r.Some? ==> r.value < |fields| && fields[r.value].name == name
  {
    if fields == [] then None
    else if fields[0].name == name then Some(0)
    else
      match FieldIndex(fields[1..], name)
      case None => None
      case Some(i) => Some(i + 1)
  }

  /** Local variables shadow functions, native or foreign. */
  function Resolve(p: Program, env: Environment, name: string): Option<Value> {
    match Lookup(env, name)
    case Some(binding) => Some(binding.value)
    case None =>
      match FindDefinition(p.functions, name)
      case Some(d) => Some(Closure(d.arguments, d.result, d.body, []))
      case None =>
        match FindForeign(p.foreigns, name)
        case Some(d) => Some(Foreign(d.foreignName, d.types, d.result))
        case None => None
  }

  function Bind(env: Environment, name: Option<string>, annotation: Option<Type>, value: Value): Environment {
    if name.Some? then [Binding(name.value, annotation, value)] + env else env
  }

  /** Later arguments shadow earlier ones. */
  function BindAll(env: Environment, arguments: seq<Argument>, values: seq<Value>): Environment
    requires |arguments| == |values|
    decreases |arguments|
  {
    if arguments == [] then env
    else BindAll([Binding(arguments[0].name, Some(arguments[0].type_), values[0])] + env, arguments[1..], values[1..])
  }

  // ----- Evaluation -----

  type Result = Outcome<Value, Value>
  type Results = Outcome<seq<Value>, Value>

  /** The first branch that accepts a value. */
  function SelectBranch(branches: seq<Branch>, concrete: Type): (r: nat)
    ensures r <= |branches|
    ensures r < |branches| ==> branches[r].annotation.Some? && Accepts(branches[r].annotation.value, concrete)
    ensures forall i :: 0 <= i < r ==> !(branches[i].annotation.Some? && Accepts(branches[i].annotation.value, concrete))
  {
    if branches == [] then 0
    else if branches[0].annotation.Some? && Accepts(branches[0].annotation.value, concrete) then 0
    else
      assert forall i :: 0 < i < |branches| ==> branches[i] == branches[1..][i - 1];
      1 + SelectBranch(branches[1..], concrete)
  }

  function FieldNames(fields: seq<Field>): (r: seq<string>)
    ensures |r| == |fields|
  {
    seq(|fields|, i requires 0 <= i < |fields| => fields[i].name)
  }

  function NameIndex(names: seq<string>, name: string): (r: Option<nat>)
    ensures r.Some? ==> r.value < |names| && names[r.value] == name
    ensures r.None? ==> name !in names
  {
    if names == [] then None
    else if names[0] == name then Some(0)
    else
      match NameIndex(names[1..], name)
      case None => None
      case Some(i) => Some(i + 1)
  }

  /** The values of fields in the declared order. */
  function Arrange<V>(declared: seq<FieldType>, names: seq<string>, values: seq<V>): (r: Option<seq<V>>)
    requires |names| == |values|
    ensures r.Some? ==> |r.value| == |declared|
    decreases |declared|
  {
    if declared == [] then Some([])
    else
      match (NameIndex(names, declared[0].name), Arrange(declared[1..], names, values))
      case (Some(i), Some(rest)) => Some([values[i]] + rest)
      case _ => None
  }

  /** Replaces fields one after the other. */
  function Replace<V>(declared: seq<FieldType>, old_: seq<V>, names: seq<string>, values: seq<V>): (r: Option<seq<V>>)
    requires |names| == |values| && |old_| == |declared|
    ensures r.Some? ==> |r.value| == |declared|
    decreases |names|
  {
    if names == [] then Some(old_)
    else
      match FieldIndex(declared, names[0])
      case None => None
      case Some(i) => Replace(declared, old_[i := values[0]], names[1..], values[1..])
  }

  predicate AllPlain(values: seq<Value>) {
    forall i :: 0 <= i < |values| ==> values[i].Plain?
  }

  function Bases(values: seq<Value>): (r: seq<Base>)
    requires AllPlain(values)
    ensures |r| == |values|
  {
    seq(|values|, i requires 0 <= i < |values| => values[i].base)
  }

  predicate IsBaseType(t: Type) {
    t.NoneType? || t.BooleanType? || t.NumberType? || t.StringType? || t.ErrorType?
  }

  function DefaultOf(t: Type): Base {
    match t
    case BooleanType => Boolean(false)
    case NumberType => Number(0)
    case StringType => String("")
    case ErrorType => Error(0)
    case _ => None_
  }

  /** A foreign function responds with a value of its result type. */
  function Respond(w: World, name: string, arguments: seq<Base>, trace: Trace, result: Type): Base {
    var response := w.respond(name, arguments, trace);
    if BaseType(response) == result then response else DefaultOf(result)
  }

  function CallForeign(w: World, name: string, result: Type, values: seq<Value>, trace: Trace): Result {
    if !AllPlain(values) || !IsBaseType(result) then Stuck
    else
      var response := Respond(w, name, Bases(values), trace, result);
      Value(Plain(response), trace + [Event(name, Bases(values), response)])
  }

  /** Evaluation with at most `n` nested calls. */
  function Eval(w: World, p: Program, n: nat, env: Environment, trace: Trace, e: Expression): Result
    decreases 2 * n + 1, e, 0
  {
    match e
    case Constant(base) => Value(Plain(base), trace)
    case Variable(name) =>
      (match Resolve(p, env, name)
       case None => Stuck
       case Some(v) => Value(v, trace))
    case If(condition, consequence, alternative) =>
      (match Eval(w, p, n, env, trace, condition)
       case Value(Plain(Boolean(b)), trace) => Eval(w, p, n, env, trace, if b then consequence else alternative)
       case Value(_, _) => Stuck
       case o => o)
    case Let(name, annotation, bound, body) =>
      (match Eval(w, p, n, env, trace, bound)
       case Value(v, trace) => Eval(w, p, n, Bind(env, name, annotation, v), trace, body)
       case o => o)
    case Lambda(arguments, result, body) => Value(Closure(arguments, result, body, env), trace)
    case Call(callee, operands) =>
      (match Eval(w, p, n, env, trace, callee)
       case Value(f, trace) =>
         (match EvalAll(w, p, n, env, trace, operands)
          case Value(values, trace) => Apply(w, p, n, f, values, trace)
          case o => Fail(o))
       case o => o)
    case IfType(name, argument, branches, otherwise) =>
      (match Eval(w, p, n, env, trace, argument)
       case Value(v, trace) =>
         var i := SelectBranch(branches, TypeOf(v));
         if i < |branches| then EvalBranch(w, p, n, env, trace, name, v, branches[i])
         else if otherwise.Some? then EvalBranch(w, p, n, env, trace, name, v, otherwise.value)
         else Stuck
       case o => o)
    case Coerce(_, _, argument) => Eval(w, p, n, env, trace, argument)
    case Construct(record, fields) =>
      (match EvalFields(w, p, n, env, trace, fields)
       case Value(values, trace) => Constructed(p, record, FieldNames(fields), values, trace)
       case o => Fail(o))
    case Select(_, argument, field) =>
      (match Eval(w, p, n, env, trace, argument)
       case Value(v, trace) => Selected(p, v, field, trace)
       case o => o)
    case Update(record, argument, fields) =>
      (match Eval(w, p, n, env, trace, argument)
       case Value(v, trace) =>
         (match EvalFields(w, p, n, env, trace, fields)
          case Value(values, trace) => Updated(p, record, v, FieldNames(fields), values, trace)
          case o => Fail(o))
       case o => o)
    case Not(argument) =>
      (match Eval(w, p, n, env, trace, argument)
       case Value(Plain(Boolean(b)), trace) => Value(Plain(Boolean(!b)), trace)
       case Value(_, _) => Stuck
       case o => o)
    case And(left, right) =>
      (match Eval(w, p, n, env, trace, left)
       case Value(Plain(Boolean(b)), trace) => if b then Eval(w, p, n, env, trace, right) else Value(Plain(Boolean(false)), trace)
       case Value(_, _) => Stuck
       case o => o)
    case Or(left, right) =>
      (match Eval(w, p, n, env, trace, left)
       case Value(Plain(Boolean(b)), trace) => if b then Value(Plain(Boolean(true)), trace) else Eval(w, p, n, env, trace, right)
       case Value(_, _) => Stuck
       case o => o)
    case Numeric(operator, left, right) =>
      (match Eval(w, p, n, env, trace, left)
       case Value(a, trace) =>
         (match Eval(w, p, n, env, trace, right)
          case Value(b, trace) =>
            if a.Plain? && a.base.Number? && b.Plain? && b.base.Number? then
              Value(Plain(Operate(w, operator, a.base.number, b.base.number)), trace)
            else Stuck
          case o => o)
       case o => o)
    case NotEqual(left, right) =>
      (match Eval(w, p, n, env, trace, left)
       case Value(a, trace) =>
         (match Eval(w, p, n, env, trace, right)
          case Value(b, trace) =>
            if a.Plain? && a.base.Number? && b.Plain? && b.base.Number? then
              Value(Plain(Boolean(!w.compare(Equal, a.base.number, b.base.number))), trace)
            else Stuck
          case o => o)
       case o => o)
    case Try(_, argument) =>
      (match Eval(w, p, n, env, trace, argument)
       case Value(v, trace) => if TypeOf(v) == ErrorType then Return(v, trace) else Value(v, trace)
       case o => o)
  }

  function EvalBranch(w: World, p: Program, n: nat, env: Environment, trace: Trace, name: string, v: Value,
                      branch: Branch): Result
    decreases 2 * n + 1, branch, 0
  {
    match branch
    case Branch(annotation, body) => Eval(w, p, n, [Binding(name, annotation, v)] + env, trace, body)
  }

  function EvalAll(w: World, p: Program, n: nat, env: Environment, trace: Trace, es: seq<Expression>): (r: Results)
    ensures r.Value? ==> |r.value| == |es|
    decreases 2 * n + 1, es, 0
  {
    if es == [] then Value([], trace)
    else
      match Eval(w, p, n, env, trace, es[0])
      case Value(v, trace) =>
        (match EvalAll(w, p, n, env, trace, es[1..])
         case Value(vs, trace) => Value([v] + vs, trace)
         case o => o)
      case o => Fail(o)
  }

  function EvalFields(w: World, p: Program, n: nat, env: Environment, trace: Trace, fields: seq<Field>): (r: Results)
    ensures r.Value? ==> |r.value| == |fields|
    decreases 2 * n + 1, fields, 0
  {
    if fields == [] then Value([], trace)
    else
      match EvalField(w, p, n, env, trace, fields[0])
      case Value(v, trace) =>
        (match EvalFields(w, p, n, env, trace, fields[1..])
         case Value(vs, trace) => Value([v] + vs, trace)
         case o => o)
      case o => Fail(o)
  }

  function EvalField(w: World, p: Program, n: nat, env: Environment, trace: Trace, field: Field): Result
    decreases 2 * n + 1, field, 0
  {
    match field
    case Field(_, expression) => Eval(w, p, n, env, trace, expression)
  }

  /** Calls a function. */
  function Apply(w: World, p: Program, n: nat, f: Value, values: seq<Value>, trace: Trace): Result
    decreases 2 * n
  {
    match f
    case Closure(arguments, _, body, env) =>
      if |arguments| != |values| then Stuck
      else if n == 0 then Timeout
      else EndCall(Eval(w, p, n - 1, BindAll(env, arguments, values), trace, body))
    case Foreign(name, types, result) => if |types| != |values| then Stuck else CallForeign(w, name, result, values, trace)
    case _ => Stuck
  }

  function Constructed(p: Program, record: string, names: seq<string>, values: seq<Value>, trace: Trace): Result
    requires |names| == |values|
  {
    match FindRecord(p.records, record)
    case None => Stuck
    case Some(declared) =>
      match Arrange(declared, names, values)
      case None => Stuck
      case Some(arranged) => Value(Record(record, arranged), trace)
  }

  function Selected(p: Program, v: Value, field: string, trace: Trace): Result {
    if !v.Record? then Stuck
    else
      match FindRecord(p.records, v.name)
      case None => Stuck
      case Some(declared) =>
        match FieldIndex(declared, field)
        case None => Stuck
        case Some(i) => if i < |v.fields| then Value(v.fields[i], trace) else Stuck
  }

  function Updated(p: Program, record: string, v: Value, names: seq<string>, values: seq<Value>, trace: Trace): Result
    requires |names| == |values|
  {
    match FindRecord(p.records, record)
    case None => Stuck
    case Some(declared) =>
      if !v.Record? || v.name != record || |v.fields| != |declared| then Stuck
      else
        match Replace(declared, v.fields, names, values)
        case None => Stuck
        case Some(replaced) => Value(Record(record, replaced), trace)
  }
}
