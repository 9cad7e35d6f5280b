/** Types of explicitly coerced expressions: every change of representation is written out. */
module HirTypes {
  import opened Sums
  import opened Semantics
  import opened Hir

  type Context = seq<Argument>

  function LookupType(ctx: Context, name: string): Option<Type> {
    if ctx == [] then None
    else if ctx[0].name == name then Some(ctx[0].type_)
    else LookupType(ctx[1..], name)
  }

  function BindTypes(ctx: Context, arguments: seq<Argument>): Context
    decreases |arguments|
  {
    if arguments == [] then ctx else BindTypes([arguments[0]] + ctx, arguments[1..])
  }

  predicate UserNames(arguments: seq<Argument>) {
    forall i :: 0 <= i < |arguments| ==> IsUserName(arguments[i].name)
  }

  /** Types of which values are represented without tags. */
  predicate IsConcrete(t: Type) {
    !IsVariant(t)
  }

  /** Types that can be tested for: concrete ones, and canonical unions of them. */
  predicate IsTestable(t: Type) {
    IsConcrete(t) || (t.UnionType? && |t.members| > 1 && forall i :: 0 <= i < |t.members| ==> IsConcrete(t.members[i]))
  }

  predicate Subsumes(to: Type, from: Type) {
    to.AnyType? || (from.UnionType? && forall i :: 0 <= i < |from.members| ==> from.members[i] in Members(to))
    || (IsConcrete(from) && from in Members(to))
  }

  /** Coercions go to variants, or leave collections as they are. */
  predicate CanCoerce(from: Type, to: Type) {
    (IsVariant(to) && Subsumes(to, from)) || ((from.ListType? || from.MapType?) && to == from)
  }

  predicate AcceptsBranch(branch: Branch, concrete: Type) {
    branch.annotation.Some? && Accepts(branch.annotation.value, concrete)
  }

  /** Every value of the tested type reaches a branch. */
  predicate Covers(t: Type, branches: seq<Branch>, otherwise: Option<Branch>) {
    match t
    case AnyType => otherwise.Some? && otherwise.value.annotation == Some(AnyType)
    case UnionType(members) =>
      forall i :: 0 <= i < |members| ==>
                    || SelectBranch(branches, members[i]) < |branches|
                    || (otherwise.Some? && AcceptsBranch(otherwise.value, members[i]))
    case _ => false
  }

  predicate AllAre(types: seq<Type>, t: Type) {
    forall i :: 0 <= i < |types| ==> types[i] == t
  }

  /** Fields are given exactly once, with their declared types. */
  predicate GivesAll(declared: seq<FieldType>, names: seq<string>, types: seq<Type>)
    requires |names| == |types|
  {
    && |names| == |declared|
    && (forall i, j :: 0 <= i < j < |names| ==> names[i] != names[j])
    && (forall i :: 0 <= i < |declared| ==> declared[i].name in names)
    && GivesSome(declared, names, types)
  }

  predicate GivesSome(declared: seq<FieldType>, names: seq<string>, types: seq<Type>)
    requires |names| == |types|
  {
    forall i :: 0 <= i < |names| ==>
                  && FieldIndex(declared, names[i]).Some?
                  && declared[FieldIndex(declared, names[i]).value].type_ == types[i]
  }

  predicate DistinctFields(declared: seq<FieldType>) {
    forall i, j :: 0 <= i < j < |declared| ==> declared[i].name != declared[j].name
  }

  /**
   The type of an expression, if it has one, in a function with result type `ret`.  Names that
   occur in expressions are those of users.
   */
  function Infer(p: Program, ctx: Context, ret: Option<Type>, e: Expression): Option<Type>
    decreases e, 0
  {
    match e
    case Constant(base) => Some(BaseType(base))
    case Variable(name) =>
      if !IsUserName(name) then None
      else if LookupType(ctx, name).Some? then LookupType(ctx, name)
      else
        (match FindDefinition(p.functions, name)
         case Some(d) => Some(FunctionType(ArgumentTypes(d.arguments), d.result))
         case None =>
           match FindForeign(p.foreigns, name)
           case Some(d) => Some(FunctionType(d.types, d.result))
           case None => None)
    case If(condition, consequence, alternative) =>
      var t := Infer(p, ctx, ret, consequence);
      if Infer(p, ctx, ret, condition) == Some(BooleanType) && Infer(p, ctx, ret, alternative) == t then t else None
    case Let(name, annotation, bound, body) =>
      if annotation.Some? && Infer(p, ctx, ret, bound) == annotation && (name.Some? ==> IsUserName(name.value)) then
        Infer(p, if name.Some? then [Argument(name.value, annotation.value)] + ctx else ctx, ret, body)
      else None
    case Lambda(arguments, result, body) =>
      if UserNames(arguments) && Infer(p, BindTypes(ctx, arguments), Some(result), body) == Some(result) then
        Some(FunctionType(ArgumentTypes(arguments), result))
      else None
    case Call(callee, operands) =>
      (match (Infer(p, ctx, ret, callee), InferAll(p, ctx, ret, operands))
       case (Some(FunctionType(arguments, result)), Some(types)) => if types == arguments then Some(result) else None
       case _ => None)
    case IfType(name, argument, branches, otherwise) =>
      (match (Infer(p, ctx, ret, argument), InferBranches(p, ctx, ret, name, branches), InferElse(p, ctx, ret, name, otherwise))
       case (Some(t), Some(types), Some(elses)) =>
         var all := elses + types;
         if IsUserName(name) && Covers(t, branches, otherwise) && all != [] && AllAre(all, all[0]) then Some(all[0]) else None
       case _ => None)
    case Coerce(from, to, argument) =>
      if Infer(p, ctx, ret, argument) == Some(from) && CanCoerce(from, to) then Some(to) else None
    case Construct(record, fields) =>
      (match (FindRecord(p.records, record), InferFields(p, ctx, ret, fields))
       case (Some(declared), Some(types)) =>
         if DistinctFields(declared) && GivesAll(declared, FieldNames(fields), types) then Some(RecordType(record)) else None
       case _ => None)
    case Select(record, argument, field) =>
      if record.Some? && Infer(p, ctx, ret, argument) == Some(RecordType(record.value)) then
        (match FindRecord(p.records, record.value)
         case None => None
         case Some(declared) =>
           match FieldIndex(declared, field)
           case None => None
           case Some(i) => Some(declared[i].type_))
      else None
    case Update(record, argument, fields) =>
      (match (FindRecord(p.records, record), InferFields(p, ctx, ret, fields))
       case (Some(declared), Some(types)) =>
         if Infer(p, ctx, ret, argument) == Some(RecordType(record)) && GivesSome(declared, FieldNames(fields), types)
         then Some(RecordType(record)) else None
       case _ => None)
    case Not(argument) => if Infer(p, ctx, ret, argument) == Some(BooleanType) then Some(BooleanType) else None
    case And(left, right) =>
      if Infer(p, ctx, ret, left) == Some(BooleanType) && Infer(p, ctx, ret, right) == Some(BooleanType) then Some(BooleanType) else None
    case Or(left, right) =>
      if Infer(p, ctx, ret, left) == Some(BooleanType) && Infer(p, ctx, ret, right) == Some(BooleanType) then Some(BooleanType) else None
    case Numeric(operator, left, right) =>
      if Infer(p, ctx, ret, left) == Some(NumberType) && Infer(p, ctx, ret, right) == Some(NumberType)
      then Some(if IsComparison(operator) then BooleanType else NumberType) else None
    case NotEqual(left, right) =>
      if Infer(p, ctx, ret, left) == Some(NumberType) && Infer(p, ctx, ret, right) == Some(NumberType) then Some(BooleanType) else None
    case Try(annotation, argument) =>
      (match Infer(p, ctx, ret, argument)
       case Some(t) =>
         if annotation.Some? && t.UnionType? && IsTestable(annotation.value) && CanFail(ret)
            && forall i :: 0 <= i < |t.members| ==> t.members[i] == ErrorType || t.members[i] in Members(annotation.value)
         then annotation else None
       case None => None)
  }

  /** The enclosing function can return errors. */
  predicate CanFail(ret: Option<Type>) {
    ret.Some? && IsVariant(ret.value) && Accepts(ret.value, ErrorType)
  }

  function InferAll(p: Program, ctx: Context, ret: Option<Type>, es: seq<Expression>): (r: Option<seq<Type>>)
    ensures r.Some? ==> |r.value| == |es|
    decreases es, 0
  {
    if es == [] then Some([])
    else
      match (Infer(p, ctx, ret, es[0]), InferAll(p, ctx, ret, es[1..]))
      case (Some(t), Some(ts)) => Some([t] + ts)
      case _ => None
  }

  function InferFields(p: Program, ctx: Context, ret: Option<Type>, fields: seq<Field>): (r: Option<seq<Type>>)
    ensures r.Some? ==> |r.value| == |fields|
    decreases fields, 0
  {
    if fields == [] then Some([])
    else
      match (InferField(p, ctx, ret, fields[0]), InferFields(p, ctx, ret, fields[1..]))
      case (Some(t), Some(ts)) => Some([t] + ts)
      case _ => None
  }

  function InferField(p: Program, ctx: Context, ret: Option<Type>, field: Field): Option<Type>
    decreases field, 0
  {
    match field
    case Field(_, expression) => Infer(p, ctx, ret, expression)
  }

  function InferBranches(p: Program, ctx: Context, ret: Option<Type>, name: string, branches: seq<Branch>): (r: Option<seq<Type>>)
    ensures r.Some? ==> |r.value| == |branches|
    decreases branches, 0
  {
    if branches == [] then Some([])
    else if branches[0].annotation.None? || !IsTestable(branches[0].annotation.value) then None
    else
      match (InferBranch(p, ctx, ret, name, branches[0]), InferBranches(p, ctx, ret, name, branches[1..]))
      case (Some(t), Some(ts)) => Some([t] + ts)
      case _ => None
  }

  function InferBranch(p: Program, ctx: Context, ret: Option<Type>, name: string, branch: Branch): Option<Type>
    decreases branch, 0
  {
    match branch
    case Branch(None, _) => None
    case Branch(Some(t), body) => Infer(p, [Argument(name, t)] + ctx, ret, body)
  }

  function InferElse(p: Program, ctx: Context, ret: Option<Type>, name: string, otherwise: Option<Branch>): (r: Option<seq<Type>>)
    ensures r.Some? ==> |r.value| == if otherwise.Some? then 1 else 0
    decreases otherwise, 0
  {
    match otherwise
    case None => Some([])
    case Some(branch) =>
      if branch.annotation.None? || !(branch.annotation.value.AnyType? || IsTestable(branch.annotation.value)) then None
      else
        match InferBranch(p, ctx, ret, name, branch)
        case Some(t) => Some([t])
        case None => None
  }

  /** Foreign functions take and return values without structure. */
  predicate IsForeign(types: seq<Type>, result: Type) {
    IsBaseType(result) && forall i :: 0 <= i < |types| ==> IsBaseType(types[i])
  }

  /** Functions have the types they are declared with. */
  predicate WellTyped(p: Program) {
    && (forall i :: 0 <= i < |p.functions| ==> WellTypedDefinition(p, p.functions[i]))
    && forall i :: 0 <= i < |p.foreigns| ==> IsUserName(p.foreigns[i].name) && IsForeign(p.foreigns[i].types, p.foreigns[i].result)
  }

  predicate WellTypedDefinition(p: Program, d: Definition) {
    && UserNames(d.arguments) && IsUserName(d.name)
    && Infer(p, BindTypes([], d.arguments), Some(d.result), d.body) == Some(d.result)
  }
}
