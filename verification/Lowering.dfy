/** From the high-level to the mid-level representation: variants, wrapped values and generated names. */
module Lowering {
  import opened Sums
  import opened Semantics
  import opened Hir
  import opened HirTypes
  import Mir

  // ----- Types -----

  /** Functions, lists and maps are wrapped in records before they are put in variants. */
  predicate IsGeneric(t: Type) {
    t.FunctionType? || t.ListType? || t.MapType?
  }

  function ConcreteRecord(t: Type): Mir.RecordName
    requires IsGeneric(t)
  {
    match t
    case FunctionType(_, _) => Mir.ConcreteFunction(t)
    case ListType(_) => Mir.ConcreteList(t)
    case MapType(_, _) => Mir.ConcreteMap(t)
  }

  /** The tag of variants that hold values of a concrete type. */
  function Concrete(t: Type): Mir.Type {
    match t
    case NoneType => Mir.NoneType
    case BooleanType => Mir.BooleanType
    case NumberType => Mir.NumberType
    case StringType => Mir.StringType
    case ErrorType => Mir.RecordType(Mir.ErrorRecord)
    case RecordType(name) => Mir.RecordType(Mir.Declared(name))
    case FunctionType(_, _) => Mir.RecordType(ConcreteRecord(t))
    case ListType(_) => Mir.RecordType(ConcreteRecord(t))
    case MapType(_, _) => Mir.RecordType(ConcreteRecord(t))
    case AnyType => Mir.VariantType
    case UnionType(_) => Mir.VariantType
  }

  function ConcreteAll(ts: seq<Type>): (r: seq<Mir.Type>)
    ensures |r| == |ts|
  {
    seq(|ts|, i requires 0 <= i < |ts| => Concrete(ts[i]))
  }

  /** Different concrete types have different tags. */
  lemma TagsAreUnique(a: Type, b: Type)
    requires IsConcrete(a) && IsConcrete(b) && Concrete(a) == Concrete(b)
    ensures a == b
  {
  }

  // ----- Expressions -----

  const CLOSURE_NAME: string := "$closure"
  const SUCCESS_NAME: string := "$success"
  const ERROR_NAME: string := "$error"

  function Annotated(annotation: Option<Type>): Type {
    if annotation.Some? then annotation.value else AnyType
  }

  function ArgumentNames(arguments: seq<Argument>): (r: seq<string>)
    ensures |r| == |arguments|
  {
    seq(|arguments|, i requires 0 <= i < |arguments| => arguments[i].name)
  }

  function Tag(t: Type, e: Mir.Expression): Mir.Expression {
    if IsGeneric(t) then Mir.Variant(Concrete(t), Mir.Record(ConcreteRecord(t), [e])) else Mir.Variant(Concrete(t), e)
  }

  function CompileCoercion(from: Type, to: Type, e: Mir.Expression): Mir.Expression {
    if IsVariant(from) then e
    else if (from.ListType? && to.ListType?) || (from.MapType? && to.MapType?) then e
    else Tag(from, e)
  }

  /** An alternative for a type; wrapped values are unwrapped under the same name. */
  function CompileAlternative(name: string, t: Type, body: Mir.Expression): Mir.Alternative {
    if IsGeneric(t) then
      Mir.Alternative(
        [Concrete(t)], name, Mir.Let(name, Mir.RecordField(ConcreteRecord(t), 0, Mir.Variable(name)), body))
    else Mir.Alternative(ConcreteAll(Members(t)), name, body)
  }

  function FieldPosition(p: Program, record: string, field: string): nat {
    match FindRecord(p.records, record)
    case None => 0
    case Some(declared) =>
      match FieldIndex(declared, field)
      case None => 0
      case Some(i) => i
  }

  /** Reads the generated variables of fields in the declared order. */
  function FieldVariables(p: Program, record: string): seq<Mir.Expression> {
    match FindRecord(p.records, record)
    case None => []
    case Some(declared) => VariablesOf(declared)
  }

  function VariablesOf(declared: seq<FieldType>): (r: seq<Mir.Expression>)
    ensures |r| == |declared|
  {
    seq(|declared|, i requires 0 <= i < |declared| => Mir.Variable(Generated(declared[i].name)))
  }

  function Compile(p: Program, e: Expression): Mir.Expression
    decreases e, 0
  {
    match e
    case Constant(base) => Mir.Constant(base)
    case Variable(name) => Mir.Variable(name)
    case If(condition, consequence, alternative) =>
      Mir.If(Compile(p, condition), Compile(p, consequence), Compile(p, alternative))
    case Let(name, _, bound, body) => Mir.Let(if name.Some? then name.value else "", Compile(p, bound), Compile(p, body))
    case Lambda(arguments, _, body) =>
      Mir.LetRecursive(CLOSURE_NAME, ArgumentNames(arguments), Compile(p, body), Mir.Variable(CLOSURE_NAME))
    case Call(callee, operands) => Mir.Call(Compile(p, callee), CompileAll(p, operands))
    case IfType(name, argument, branches, otherwise) =>
      Mir.Case(Compile(p, argument), CompileBranches(p, name, branches) + CompileElse(p, name, otherwise),
               CompileDefault(p, name, otherwise))
    case Coerce(from, to, argument) => CompileCoercion(from, to, Compile(p, argument))
    case Construct(record, fields) =>
      CompileFields(p, fields, Mir.Record(Mir.Declared(record), FieldVariables(p, record)))
    case Select(record, argument, field) =>
      var name := if record.Some? then record.value else "";
      Mir.RecordField(Mir.Declared(name), FieldPosition(p, name, field), Compile(p, argument))
    case Update(record, argument, fields) =>
      Mir.RecordUpdate(Mir.Declared(record), Compile(p, argument), CompileUpdates(p, record, fields))
    case Not(argument) => Mir.If(Compile(p, argument), Mir.Constant(Boolean(false)), Mir.Constant(Boolean(true)))
    case And(left, right) => Mir.If(Compile(p, left), Compile(p, right), Mir.Constant(Boolean(false)))
    case Or(left, right) => Mir.If(Compile(p, left), Mir.Constant(Boolean(true)), Compile(p, right))
    case Numeric(operator, left, right) => Mir.Numeric(operator, Compile(p, left), Compile(p, right))
    case NotEqual(left, right) =>
      Mir.If(Mir.Numeric(Equal, Compile(p, left), Compile(p, right)), Mir.Constant(Boolean(false)), Mir.Constant(Boolean(true)))
    case Try(annotation, argument) =>
      Mir.Case(
        Mir.TryOperation(
          Compile(p, argument), ERROR_NAME, Concrete(ErrorType), Mir.Variant(Concrete(ErrorType), Mir.Variable(ERROR_NAME))),
        [CompileAlternative(SUCCESS_NAME, Annotated(annotation), Mir.Variable(SUCCESS_NAME))], None)
  }

  function CompileAll(p: Program, es: seq<Expression>): (r: seq<Mir.Expression>)
    ensures |r| == |es|
    decreases es, 0
  {
    if es == [] then [] else [Compile(p, es[0])] + CompileAll(p, es[1..])
  }

  function CompileBranch(p: Program, name: string, branch: Branch): Mir.Alternative
    decreases branch, 0
  {
    match branch
    case Branch(annotation, body) => CompileAlternative(name, Annotated(annotation), Compile(p, body))
  }

  function CompileBranches(p: Program, name: string, branches: seq<Branch>): (r: seq<Mir.Alternative>)
    ensures |r| == |branches|
    decreases branches, 0
  {
    if branches == [] then [] else [CompileBranch(p, name, branches[0])] + CompileBranches(p, name, branches[1..])
  }

  /** An else branch for anything becomes the default, any other one an alternative. */
  function CompileElse(p: Program, name: string, otherwise: Option<Branch>): seq<Mir.Alternative>
    decreases otherwise, 0
  {
    match otherwise
    case None => []
    case Some(branch) => if Annotated(branch.annotation).AnyType? then [] else [CompileBranch(p, name, branch)]
  }

  function CompileDefault(p: Program, name: string, otherwise: Option<Branch>): Option<Mir.Fallback>
    decreases otherwise, 0
  {
    match otherwise
    case None => None
    case Some(branch) => CompileDefaultBranch(p, name, branch)
  }

  function CompileDefaultBranch(p: Program, name: string, branch: Branch): Option<Mir.Fallback>
    decreases branch, 0
  {
    match branch
    case Branch(annotation, body) => if Annotated(annotation).AnyType? then Some(Mir.Fallback(name, Compile(p, body))) else None
  }

  /** Evaluates fields in the given order under generated names. */
  function CompileFields(p: Program, fields: seq<Field>, end: Mir.Expression): Mir.Expression
    decreases fields, 0
  {
    if fields == [] then end
    else Mir.Let(Generated(fields[0].name), CompileField(p, fields[0]), CompileFields(p, fields[1..], end))
  }

  function CompileField(p: Program, field: Field): Mir.Expression
    decreases field, 0
  {
    match field
    case Field(_, expression) => Compile(p, expression)
  }

  function CompileUpdates(p: Program, record: string, fields: seq<Field>): (r: seq<Mir.UpdateField>)
    ensures |r| == |fields|
    decreases fields, 0
  {
    if fields == [] then []
    else
      [Mir.UpdateField(FieldPosition(p, record, fields[0].name), CompileField(p, fields[0]))]
      + CompileUpdates(p, record, fields[1..])
  }

  function CompileDefinition(p: Program, d: Definition): Mir.Definition {
    Mir.Definition(d.name, ArgumentNames(d.arguments), Compile(p, d.body))
  }

  function CompileDefinitions(p: Program, ds: seq<Definition>): (r: seq<Mir.Definition>)
    ensures |r| == |ds|
  {
    if ds == [] then [] else [CompileDefinition(p, ds[0])] + CompileDefinitions(p, ds[1..])
  }

  function CompileForeigns(ds: seq<ForeignDeclaration>): (r: seq<Mir.ForeignDeclaration>)
    ensures |r| == |ds|
  {
    if ds == [] then []
    else [Mir.ForeignDeclaration(ds[0].name, ds[0].foreignName, |ds[0].types|, ds[0].result)] + CompileForeigns(ds[1..])
  }

  function CompileProgram(p: Program): Mir.Program {
    Mir.Program(CompileForeigns(p.foreigns), CompileDefinitions(p, p.functions))
  }
}
