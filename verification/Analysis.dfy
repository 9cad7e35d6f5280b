/**
 Type analysis: types are inferred, expressions are checked against them, and coercions are inserted
 where a value changes its representation.  Types are resolved and canonical: unions are flat, have
 at least two members without any, and keep them in a fixed order.
 */
module Analysis {
  import opened Sums
  import opened Semantics
  import opened Hir
  import opened HirTypes

  // ----- Types -----

  /** An order of types, in which unions keep their members. */
  type Order = Type -> real

  ghost predicate IsOrder(o: Order) {
    forall s, t :: o(s) == o(t) ==> s == t
  }

  predicate Sorted(o: Order, members: seq<Type>) {
    forall i, j :: 0 <= i < j < |members| ==> o(members[i]) < o(members[j])
  }

  predicate Canonical(o: Order, t: Type) {
    match t
    case FunctionType(arguments, result) => Canonical(o, result) && forall i :: 0 <= i < |arguments| ==> Canonical(o, arguments[i])
    case ListType(element) => Canonical(o, element)
    case MapType(key, value) => Canonical(o, key) && Canonical(o, value)
    case UnionType(members) =>
      |members| > 1 && Sorted(o, members) && forall i :: 0 <= i < |members| ==> IsConcrete(members[i]) && Canonical(o, members[i])
    case _ => true
  }

  predicate AllCanonical(o: Order, ts: seq<Type>) {
    forall i :: 0 <= i < |ts| ==> Canonical(o, ts[i])
  }

  function Insert(o: Order, members: seq<Type>, t: Type): seq<Type> {
    if members == [] || o(t) < o(members[0]) then [t] + members
    else if t == members[0] then members
    else [members[0]] + Insert(o, members[1..], t)
  }

  function InsertAll(o: Order, members: seq<Type>, ts: seq<Type>): seq<Type>
    decreases |ts|
  {
    if ts == [] then members else InsertAll(o, Insert(o, members, ts[0]), ts[1..])
  }

  /** All members of types, in order. */
  function Gather(o: Order, ts: seq<Type>): seq<Type> {
    if ts == [] then [] else InsertAll(o, Gather(o, ts[1..]), Members(ts[0]))
  }

  /** A type with the given members. */
  function FromMembers(members: seq<Type>): Type
    requires members != []
  {
    if |members| == 1 then members[0] else UnionType(members)
  }

  /** The canonical union of types; there is none of no types. */
  function Union(o: Order, ts: seq<Type>): Option<Type> {
    if AnyType in ts then Some(AnyType)
    else if Gather(o, ts) == [] then None
    else Some(FromMembers(Gather(o, ts)))
  }

  function Without(members: seq<Type>, others: seq<Type>): seq<Type> {
    if members == [] then []
    else (if members[0] in others then [] else [members[0]]) + Without(members[1..], others)
  }

  /** The type of what is left of one type when another one has been ruled out, if anything. */
  function Difference(one: Type, other: Type): Option<Type> {
    if other.AnyType? then None
    else if one.AnyType? then Some(one)
    else
      var rest := Without(Members(one), Members(other));
      if rest == [] then None else Some(FromMembers(rest))
  }

  predicate IsSubsumed(lower: Type, upper: Type) {
    match upper
    case AnyType => true
    case UnionType(members) =>
      if lower.UnionType? then forall i :: 0 <= i < |lower.members| ==> lower.members[i] in members else lower in members
    case _ => lower == upper
  }

  predicate Fits(t: Option<Type>, upper: Type) {
    t.Some? && IsSubsumed(t.value, upper)
  }

  // ----- Names -----

  function VariableType(p: Program, ctx: Context, name: string): Option<Type> {
    if LookupType(ctx, name).Some? then LookupType(ctx, name)
    else
      match FindDefinition(p.functions, name)
      case Some(d) => Some(FunctionType(ArgumentTypes(d.arguments), d.result))
      case None =>
        match FindForeign(p.foreigns, name)
        case Some(d) => Some(FunctionType(d.types, d.result))
        case None => None
  }

  function BindName(ctx: Context, name: Option<string>, t: Type): Context {
    if name.Some? then [Argument(name.value, t)] + ctx else ctx
  }

  function DeclaredType(p: Program, record: string, field: string): Option<Type> {
    match FindRecord(p.records, record)
    case None => None
    case Some(declared) =>
      match FieldIndex(declared, field)
      case None => None
      case Some(i) => Some(declared[i].type_)
  }

  // ----- Extraction of types from expressions that are annotated -----

  function Extract(o: Order, p: Program, ctx: Context, e: Expression): Option<Type>
    decreases e, 0
  {
    match e
    case Constant(base) => Some(BaseType(base))
    case Variable(name) => VariableType(p, ctx, name)
    case If(_, consequence, alternative) =>
      (match (Extract(o, p, ctx, consequence), Extract(o, p, ctx, alternative))
       case (Some(s), Some(t)) => Union(o, [s, t])
       case _ => None)
    case Let(name, annotation, _, body) =>
      if annotation.Some? then Extract(o, p, BindName(ctx, name, annotation.value), body)
      else if name.None? then Extract(o, p, ctx, body) else None
    case Lambda(arguments, result, _) => Some(FunctionType(ArgumentTypes(arguments), result))
    case Call(callee, _) =>
      (match Extract(o, p, ctx, callee)
       case Some(FunctionType(_, result)) => Some(result)
       case _ => None)
    case IfType(name, _, branches, otherwise) =>
      (match (ExtractBranches(o, p, ctx, name, branches), ExtractElse(o, p, ctx, name, otherwise))
       case (Some(types), Some(elses)) => Union(o, types + elses)
       case _ => None)
    case Coerce(_, to, _) => Some(to)
    case Construct(record, _) => Some(RecordType(record))
    case Select(record, _, field) => if record.Some? then DeclaredType(p, record.value, field) else None
    case Update(record, _, _) => Some(RecordType(record))
    case Not(_) => Some(BooleanType)
    case And(_, _) => Some(BooleanType)
    case Or(_, _) => Some(BooleanType)
    case Numeric(operator, _, _) => Some(if IsComparison(operator) then BooleanType else NumberType)
    case NotEqual(_, _) => Some(BooleanType)
    case Try(annotation, _) => annotation
  }

  function ExtractBranches(o: Order, p: Program, ctx: Context, name: string, branches: seq<Branch>): (r: Option<seq<Type>>)
    ensures r.Some? ==> |r.value| == |branches|
    decreases branches, 0
  {
    if branches == [] then Some([])
    else
      match (ExtractBranch(o, p, ctx, name, branches[0]), ExtractBranches(o, p, ctx, name, branches[1..]))
      case (Some(t), Some(ts)) => Some([t] + ts)
      case _ => None
  }

  function ExtractBranch(o: Order, p: Program, ctx: Context, name: string, branch: Branch): Option<Type>
    decreases branch, 0
  {
    match branch
    case Branch(None, _) => None
    case Branch(Some(t), body) => Extract(o, p, [Argument(name, t)] + ctx, body)
  }

  function ExtractElse(o: Order, p: Program, ctx: Context, name: string, otherwise: Option<Branch>): (r: Option<seq<Type>>)
    ensures r.Some? ==> |r.value| == if otherwise.Some? then 1 else 0
    decreases otherwise, 0
  {
    match otherwise
    case None => Some([])
    case Some(branch) =>
      match ExtractBranch(o, p, ctx, name, branch)
      case Some(t) => Some([t])
      case None => None
  }

  // ----- Inference -----

  function AnnotationTypes(branches: seq<Branch>): (r: seq<Type>)
    ensures |r| == |branches|
  {
    seq(|branches|, i requires 0 <= i < |branches| =>
      if branches[i].annotation.Some? then branches[i].annotation.value else AnyType)
  }

  /** The type of a tested value in an else branch. */
  function ElseType(o: Order, p: Program, ctx: Context, argument: Expression, branches: seq<Branch>): Option<Type> {
    match (Extract(o, p, ctx, argument), Union(o, AnnotationTypes(branches)))
    case (Some(t), Some(ruledOut)) => Difference(t, ruledOut)
    case _ => None
  }

  /** The type of the value that is left when errors are passed on; there has to be one, and not any. */
  function SuccessType(o: Order, p: Program, ctx: Context, argument: Expression): Option<Type> {
    match Extract(o, p, ctx, argument)
    case None => None
    case Some(t) =>
      match Difference(t, ErrorType)
      case Some(AnyType) => None
      case r => r
  }

  function InferTypes(o: Order, p: Program, ctx: Context, e: Expression): Option<Expression>
    decreases e, 0
  {
    match e
    case Constant(_) => Some(e)
    case Variable(_) => Some(e)
    case If(condition, consequence, alternative) =>
      (match (InferTypes(o, p, ctx, condition), InferTypes(o, p, ctx, consequence), InferTypes(o, p, ctx, alternative))
       case (Some(c), Some(a), Some(b)) => Some(If(c, a, b))
       case _ => None)
    case Let(name, _, bound, body) =>
      (match InferTypes(o, p, ctx, bound)
       case None => None
       case Some(bound) =>
         match Extract(o, p, ctx, bound)
         case None => None
         case Some(t) =>
           match InferTypes(o, p, BindName(ctx, name, t), body)
           case None => None
           case Some(body) => Some(Let(name, Some(t), bound, body)))
    case Lambda(arguments, result, body) =>
      (match InferTypes(o, p, BindTypes(ctx, arguments), body)
       case None => None
       case Some(body) => Some(Lambda(arguments, result, body)))
    case Call(callee, operands) =>
      (match (InferTypes(o, p, ctx, callee), InferTypesAll(o, p, ctx, operands))
       case (Some(callee), Some(operands)) => if Extract(o, p, ctx, callee).Some? then Some(Call(callee, operands)) else None
       case _ => None)
    case IfType(name, argument, branches, otherwise) =>
      (match (InferTypes(o, p, ctx, argument), InferTypesBranches(o, p, ctx, name, branches))
       case (Some(argument), Some(branches)) =>
         (match otherwise
          case None => Some(IfType(name, argument, branches, None))
          case Some(branch) =>
            match ElseType(o, p, ctx, argument, branches)
            case None => None
            case Some(t) =>
              match InferTypesBranch(o, p, ctx, name, branch, t)
              case None => None
              case Some(branch) => Some(IfType(name, argument, branches, Some(branch))))
       case _ => None)
    case Coerce(from, to, argument) =>
      (match InferTypes(o, p, ctx, argument)
       case None => None
       case Some(argument) => Some(Coerce(from, to, argument)))
    case Construct(record, fields) =>
      (match InferTypesFields(o, p, ctx, fields)
       case None => None
       case Some(fields) => Some(Construct(record, fields)))
    case Select(_, argument, field) =>
      (match InferTypes(o, p, ctx, argument)
       case None => None
       case Some(argument) =>
         match Extract(o, p, ctx, argument)
         case Some(RecordType(record)) => Some(Select(Some(record), argument, field))
         case _ => None)
    case Update(record, argument, fields) =>
      (match (InferTypes(o, p, ctx, argument), InferTypesFields(o, p, ctx, fields))
       case (Some(argument), Some(fields)) => Some(Update(record, argument, fields))
       case _ => None)
    case Not(argument) =>
      (match InferTypes(o, p, ctx, argument)
       case None => None
       case Some(argument) => Some(Not(argument)))
    case And(left, right) =>
      (match (InferTypes(o, p, ctx, left), InferTypes(o, p, ctx, right))
       case (Some(left), Some(right)) => Some(And(left, right))
       case _ => None)
    case Or(left, right) =>
      (match (InferTypes(o, p, ctx, left), InferTypes(o, p, ctx, right))
       case (Some(left), Some(right)) => Some(Or(left, right))
       case _ => None)
    case Numeric(operator, left, right) =>
      (match (InferTypes(o, p, ctx, left), InferTypes(o, p, ctx, right))
       case (Some(left), Some(right)) => Some(Numeric(operator, left, right))
       case _ => None)
    case NotEqual(left, right) =>
      (match (InferTypes(o, p, ctx, left), InferTypes(o, p, ctx, right))
       case (Some(left), Some(right)) => Some(NotEqual(left, right))
       case _ => None)
    case Try(_, argument) =>
      (match InferTypes(o, p, ctx, argument)
       case None => None
       case Some(argument) =>
         match SuccessType(o, p, ctx, argument)
         case None => None
         case Some(t) => Some(Try(Some(t), argument)))
  }

  function InferTypesAll(o: Order, p: Program, ctx: Context, es: seq<Expression>): (r: Option<seq<Expression>>)
    ensures r.Some? ==> |r.value| == |es|
    decreases es, 0
  {
    if es == [] then Some([])
    else
      match (InferTypes(o, p, ctx, es[0]), InferTypesAll(o, p, ctx, es[1..]))
      case (Some(e), Some(es)) => Some([e] + es)
      case _ => None
  }

  function InferTypesBranches(o: Order, p: Program, ctx: Context, name: string, branches: seq<Branch>): (r: Option<seq<Branch>>)
    ensures r.Some? ==> |r.value| == |branches|
    decreases branches, 0
  {
    if branches == [] then Some([])
    else if branches[0].annotation.None? then None
    else
      match (InferTypesBranch(o, p, ctx, name, branches[0], branches[0].annotation.value), InferTypesBranches(o, p, ctx, name, branches[1..]))
      case (Some(b), Some(bs)) => Some([b] + bs)
      case _ => None
  }

  function InferTypesBranch(o: Order, p: Program, ctx: Context, name: string, branch: Branch, t: Type): Option<Branch>
    decreases branch, 0
  {
    match branch
    case Branch(_, body) =>
      match InferTypes(o, p, [Argument(name, t)] + ctx, body)
      case None => None
      case Some(body) => Some(Branch(Some(t), body))
  }

  function InferTypesFields(o: Order, p: Program, ctx: Context, fields: seq<Field>): (r: Option<seq<Field>>)
    ensures r.Some? ==> |r.value| == |fields|
    decreases fields, 0
  {
    if fields == [] then Some([])
    else
      match (InferTypesField(o, p, ctx, fields[0]), InferTypesFields(o, p, ctx, fields[1..]))
      case (Some(f), Some(fs)) => Some([f] + fs)
      case _ => None
  }

  function InferTypesField(o: Order, p: Program, ctx: Context, field: Field): Option<Field>
    decreases field, 0
  {
    match field
    case Field(name, expression) =>
      match InferTypes(o, p, ctx, expression)
      case None => None
      case Some(expression) => Some(Field(name, expression))
  }

  // ----- Checks -----

  predicate AllSubsumed(types: seq<Type>, uppers: seq<Type>) {
    |types| == |uppers| && forall i :: 0 <= i < |types| ==> IsSubsumed(types[i], uppers[i])
  }

  /** Fields have types that their declarations allow. */
  predicate FieldsFit(p: Program, record: string, names: seq<string>, types: seq<Type>)
    requires |names| == |types|
  {
    forall i :: 0 <= i < |names| ==>
                  DeclaredType(p, record, names[i]).Some? && IsSubsumed(types[i], DeclaredType(p, record, names[i]).value)
  }

  /** Branches test for types that the value may have, and for all of them unless there is an else branch. */
  predicate BranchesFit(o: Order, t: Type, branches: seq<Branch>, otherwise: Option<Branch>) {
    && IsVariant(t)
    && (forall i :: 0 <= i < |branches| ==>
          branches[i].annotation.Some? && !branches[i].annotation.value.AnyType? && IsSubsumed(branches[i].annotation.value, t))
    && (otherwise.None? ==> Union(o, AnnotationTypes(branches)) == Some(t))
  }

  function Check(o: Order, p: Program, ctx: Context, e: Expression): Option<Type>
    decreases e, 0
  {
    match e
    case Constant(base) => Some(BaseType(base))
    case Variable(name) => VariableType(p, ctx, name)
    case If(condition, consequence, alternative) =>
      if Fits(Check(o, p, ctx, condition), BooleanType) && Check(o, p, ctx, consequence).Some? && Check(o, p, ctx, alternative).Some? then
        Extract(o, p, ctx, e)
      else None
    case Let(name, annotation, bound, body) =>
      if annotation.Some? && Fits(Check(o, p, ctx, bound), annotation.value) then
        Check(o, p, BindName(ctx, name, annotation.value), body)
      else None
    case Lambda(arguments, result, body) =>
      if Fits(Check(o, p, BindTypes(ctx, arguments), body), result) then Some(FunctionType(ArgumentTypes(arguments), result)) else None
    case Call(callee, operands) =>
      (match (Extract(o, p, ctx, callee), CheckAll(o, p, ctx, operands))
       case (Some(FunctionType(arguments, result)), Some(types)) =>
         if AllSubsumed(types, arguments) && Fits(Check(o, p, ctx, callee), FunctionType(arguments, result)) then Some(result) else None
       case _ => None)
    case IfType(name, argument, branches, otherwise) =>
      (match Check(o, p, ctx, argument)
       case None => None
       case Some(t) =>
         if BranchesFit(o, t, branches, otherwise) && CheckBranches(o, p, ctx, name, branches) && CheckElse(o, p, ctx, name, otherwise) then
           Extract(o, p, ctx, e)
         else None)
    case Coerce(from, to, argument) =>
      if Fits(Check(o, p, ctx, argument), from) && (to.ListType? || to.MapType? || IsSubsumed(from, to)) then Some(to) else None
    case Construct(record, fields) =>
      (match (FindRecord(p.records, record), CheckFields(o, p, ctx, fields))
       case (Some(declared), Some(types)) =>
         if FieldsFit(p, record, FieldNames(fields), types)
            && forall i :: 0 <= i < |declared| ==> declared[i].name in FieldNames(fields)
         then Some(RecordType(record)) else None
       case _ => None)
    case Select(record, argument, field) =>
      if record.Some? && Fits(Check(o, p, ctx, argument), RecordType(record.value)) then DeclaredType(p, record.value, field) else None
    case Update(record, argument, fields) =>
      (match (FindRecord(p.records, record), CheckFields(o, p, ctx, fields))
       case (Some(_), Some(types)) =>
         if Fits(Check(o, p, ctx, argument), RecordType(record)) && FieldsFit(p, record, FieldNames(fields), types) then
           Some(RecordType(record))
         else None
       case _ => None)
    case Not(argument) => if Fits(Check(o, p, ctx, argument), BooleanType) then Some(BooleanType) else None
    case And(left, right) =>
      if Fits(Check(o, p, ctx, left), BooleanType) && Fits(Check(o, p, ctx, right), BooleanType) then Some(BooleanType) else None
    case Or(left, right) =>
      if Fits(Check(o, p, ctx, left), BooleanType) && Fits(Check(o, p, ctx, right), BooleanType) then Some(BooleanType) else None
    case Numeric(operator, left, right) =>
      if Fits(Check(o, p, ctx, left), NumberType) && Fits(Check(o, p, ctx, right), NumberType) then
        Some(if IsComparison(operator) then BooleanType else NumberType)
      else None
    case NotEqual(left, right) =>
      if Fits(Check(o, p, ctx, left), NumberType) && Fits(Check(o, p, ctx, right), NumberType) then Some(BooleanType) else None
    case Try(annotation, argument) =>
      (match (annotation, Check(o, p, ctx, argument))
       case (Some(success), Some(t)) =>
         if IsSubsumed(ErrorType, t) && IsSubsumed(success, t) && Union(o, [success, ErrorType]).Some?
            && IsSubsumed(t, Union(o, [success, ErrorType]).value)
         then annotation else None
       case _ => None)
  }

  function CheckAll(o: Order, p: Program, ctx: Context, es: seq<Expression>): (r: Option<seq<Type>>)
    ensures r.Some? ==> |r.value| == |es|
    decreases es, 0
  {
    if es == [] then Some([])
    else
      match (Check(o, p, ctx, es[0]), CheckAll(o, p, ctx, es[1..]))
      case (Some(t), Some(ts)) => Some([t] + ts)
      case _ => None
  }

  predicate CheckBranches(o: Order, p: Program, ctx: Context, name: string, branches: seq<Branch>)
    decreases branches, 0
  {
    branches == [] || (CheckBranch(o, p, ctx, name, branches[0]) && CheckBranches(o, p, ctx, name, branches[1..]))
  }

  predicate CheckBranch(o: Order, p: Program, ctx: Context, name: string, branch: Branch)
    decreases branch, 0
  {
    match branch
    case Branch(None, _) => false
    case Branch(Some(t), body) => Check(o, p, [Argument(name, t)] + ctx, body).Some?
  }

  predicate CheckElse(o: Order, p: Program, ctx: Context, name: string, otherwise: Option<Branch>)
    decreases otherwise, 0
  {
    match otherwise
    case None => true
    case Some(branch) => CheckBranch(o, p, ctx, name, branch)
  }

  function CheckFields(o: Order, p: Program, ctx: Context, fields: seq<Field>): (r: Option<seq<Type>>)
    ensures r.Some? ==> |r.value| == |fields|
    decreases fields, 0
  {
    if fields == [] then Some([])
    else
      match (CheckField(o, p, ctx, fields[0]), CheckFields(o, p, ctx, fields[1..]))
      case (Some(t), Some(ts)) => Some([t] + ts)
      case _ => None
  }

  function CheckField(o: Order, p: Program, ctx: Context, field: Field): Option<Type>
    decreases field, 0
  {
    match field
    case Field(_, expression) => Check(o, p, ctx, expression)
  }

  /** Whether an early return with an error can leave a function. */
  predicate PassesErrors(result: Type) {
    IsSubsumed(ErrorType, result)
  }

  /** Every early return is in a function of a result type that allows for it. */
  predicate TriesReturn(allows: Type -> bool, result: Type, e: Expression)
    decreases e, 0
  {
    match e
    case Constant(_) => true
    case Variable(_) => true
    case If(condition, consequence, alternative) =>
      TriesReturn(allows, result, condition) && TriesReturn(allows, result, consequence) && TriesReturn(allows, result, alternative)
    case Let(_, _, bound, body) => TriesReturn(allows, result, bound) && TriesReturn(allows, result, body)
    case Lambda(_, ownResult, body) => TriesReturn(allows, ownResult, body)
    case Call(callee, operands) =>
      TriesReturn(allows, result, callee) && AllReturn(allows, result, operands)
    case IfType(_, argument, branches, otherwise) =>
      && TriesReturn(allows, result, argument)
      && BranchesReturn(allows, result, branches)
      && (otherwise.Some? ==> BranchReturns(allows, result, otherwise.value))
    case Coerce(_, _, argument) => TriesReturn(allows, result, argument)
    case Construct(_, fields) => FieldsReturn(allows, result, fields)
    case Select(_, argument, _) => TriesReturn(allows, result, argument)
    case Update(_, argument, fields) =>
      TriesReturn(allows, result, argument) && FieldsReturn(allows, result, fields)
    case Not(argument) => TriesReturn(allows, result, argument)
    case And(left, right) => TriesReturn(allows, result, left) && TriesReturn(allows, result, right)
    case Or(left, right) => TriesReturn(allows, result, left) && TriesReturn(allows, result, right)
    case Numeric(_, left, right) => TriesReturn(allows, result, left) && TriesReturn(allows, result, right)
    case NotEqual(left, right) => TriesReturn(allows, result, left) && TriesReturn(allows, result, right)
    case Try(_, argument) => allows(result) && TriesReturn(allows, result, argument)
  }

  predicate AllReturn(allows: Type -> bool, result: Type, es: seq<Expression>)
    decreases es, 0
  {
    forall i :: 0 <= i < |es| ==> TriesReturn(allows, result, es[i])
  }

  predicate BranchesReturn(allows: Type -> bool, result: Type, branches: seq<Branch>)
    decreases branches, 0
  {
    forall i :: 0 <= i < |branches| ==> BranchReturns(allows, result, branches[i])
  }

  predicate FieldsReturn(allows: Type -> bool, result: Type, fields: seq<Field>)
    decreases fields, 0
  {
    forall i :: 0 <= i < |fields| ==> FieldReturns(allows, result, fields[i])
  }

  predicate BranchReturns(allows: Type -> bool, result: Type, branch: Branch)
    decreases branch, 0
  {
    match branch
    case Branch(_, body) => TriesReturn(allows, result, body)
  }

  predicate FieldReturns(allows: Type -> bool, result: Type, field: Field)
    decreases field, 0
  {
    match field
    case Field(_, expression) => TriesReturn(allows, result, expression)
  }

  // ----- Coercions -----

  /** Changes the representation of an expression, unless its type is the right one already. */
  function CoerceTo(o: Order, p: Program, ctx: Context, e: Option<Expression>, upper: Type): Option<Expression> {
    if e.None? || Extract(o, p, ctx, e.value).None? then None
    else
      var lower := Extract(o, p, ctx, e.value).value;
      Some(if lower == upper then e.value else Coerce(lower, upper, e.value))
  }

  function CoerceTypes(o: Order, p: Program, ctx: Context, e: Expression): Option<Expression>
    decreases e, 0
  {
    match e
    case Constant(_) => Some(e)
    case Variable(_) => Some(e)
    case If(condition, consequence, alternative) =>
      (match Extract(o, p, ctx, e)
       case None => None
       case Some(t) =>
         match (CoerceTypes(o, p, ctx, condition), CoerceTo(o, p, ctx, CoerceTypes(o, p, ctx, consequence), t),
                CoerceTo(o, p, ctx, CoerceTypes(o, p, ctx, alternative), t))
         case (Some(c), Some(a), Some(b)) => Some(If(c, a, b))
         case _ => None)
    case Let(name, annotation, bound, body) =>
      if annotation.None? then None
      else
        (match (CoerceTypes(o, p, ctx, bound), CoerceTypes(o, p, BindName(ctx, name, annotation.value), body))
         case (Some(bound), Some(body)) => Some(Let(name, annotation, bound, body))
         case _ => None)
    case Lambda(arguments, result, body) =>
      var inner := BindTypes(ctx, arguments);
      (match CoerceTo(o, p, inner, CoerceTypes(o, p, inner, body), result)
       case None => None
       case Some(body) => Some(Lambda(arguments, result, body)))
    case Call(callee, operands) =>
      (match (Extract(o, p, ctx, callee), CoerceTypes(o, p, ctx, callee))
       case (Some(FunctionType(arguments, _)), Some(callee)) =>
         (match CoerceAll(o, p, ctx, operands, arguments)
          case None => None
          case Some(operands) => Some(Call(callee, operands)))
       case _ => None)
    case IfType(name, argument, branches, otherwise) =>
      (match (Extract(o, p, ctx, e), CoerceTypes(o, p, ctx, argument))
       case (Some(t), Some(argument)) =>
         (match (CoerceBranches(o, p, ctx, name, branches, t), CoerceElse(o, p, ctx, name, otherwise, t))
          case (Some(branches), Some(otherwise)) => Some(IfType(name, argument, branches, otherwise))
          case _ => None)
       case _ => None)
    case Coerce(from, to, argument) =>
      (match CoerceTypes(o, p, ctx, argument)
       case None => None
       case Some(argument) => Some(Coerce(from, to, argument)))
    case Construct(record, fields) =>
      (match CoerceFields(o, p, ctx, record, fields)
       case None => None
       case Some(fields) => Some(Construct(record, fields)))
    case Select(record, argument, field) =>
      (match CoerceTypes(o, p, ctx, argument)
       case None => None
       case Some(argument) => Some(Select(record, argument, field)))
    case Update(record, argument, fields) =>
      (match (CoerceTypes(o, p, ctx, argument), CoerceFields(o, p, ctx, record, fields))
       case (Some(argument), Some(fields)) => Some(Update(record, argument, fields))
       case _ => None)
    case Not(argument) =>
      (match CoerceTypes(o, p, ctx, argument)
       case None => None
       case Some(argument) => Some(Not(argument)))
    case And(left, right) =>
      (match (CoerceTypes(o, p, ctx, left), CoerceTypes(o, p, ctx, right))
       case (Some(left), Some(right)) => Some(And(left, right))
       case _ => None)
    case Or(left, right) =>
      (match (CoerceTypes(o, p, ctx, left), CoerceTypes(o, p, ctx, right))
       case (Some(left), Some(right)) => Some(Or(left, right))
       case _ => None)
    case Numeric(operator, left, right) =>
      (match (CoerceTypes(o, p, ctx, left), CoerceTypes(o, p, ctx, right))
       case (Some(left), Some(right)) => Some(Numeric(operator, left, right))
       case _ => None)
    case NotEqual(left, right) =>
      // Both operands are numbers, so that their union is the type of both.
      (match (CoerceTypes(o, p, ctx, left), CoerceTypes(o, p, ctx, right))
       case (Some(left), Some(right)) => Some(NotEqual(left, right))
       case _ => None)
    case Try(annotation, argument) =>
      (match CoerceTypes(o, p, ctx, argument)
       case None => None
       case Some(argument) => Some(Try(annotation, argument)))
  }

  function CoerceAll(o: Order, p: Program, ctx: Context, es: seq<Expression>, uppers: seq<Type>): (r: Option<seq<Expression>>)
    ensures r.Some? && |es| == |uppers| ==> |r.value| == |es|
    decreases es, 0
  {
    if es == [] || uppers == [] then Some([])
    else
      match (CoerceTo(o, p, ctx, CoerceTypes(o, p, ctx, es[0]), uppers[0]), CoerceAll(o, p, ctx, es[1..], uppers[1..]))
      case (Some(e), Some(es)) => Some([e] + es)
      case _ => None
  }

  function CoerceBranches(o: Order, p: Program, ctx: Context, name: string, branches: seq<Branch>, upper: Type): (r: Option<seq<Branch>>)
    ensures r.Some? ==> |r.value| == |branches|
    decreases branches, 0
  {
    if branches == [] then Some([])
    else
      match (CoerceBranch(o, p, ctx, name, branches[0], upper), CoerceBranches(o, p, ctx, name, branches[1..], upper))
      case (Some(b), Some(bs)) => Some([b] + bs)
      case _ => None
  }

  function CoerceBranch(o: Order, p: Program, ctx: Context, name: string, branch: Branch, upper: Type): (r: Option<Branch>)
    ensures r.Some? ==> r.value.annotation == branch.annotation
    decreases branch, 0
  {
    match branch
    case Branch(None, _) => None
    case Branch(Some(t), body) =>
      var inner := [Argument(name, t)] + ctx;
      match CoerceTo(o, p, inner, CoerceTypes(o, p, inner, body), upper)
      case None => None
      case Some(body) => Some(Branch(Some(t), body))
  }

  function CoerceElse(o: Order, p: Program, ctx: Context, name: string, otherwise: Option<Branch>, upper: Type): Option<Option<Branch>>
    decreases otherwise, 0
  {
    match otherwise
    case None => Some(None)
    case Some(branch) =>
      match CoerceBranch(o, p, ctx, name, branch, upper)
      case None => None
      case Some(branch) => Some(Some(branch))
  }

  function CoerceFields(o: Order, p: Program, ctx: Context, record: string, fields: seq<Field>): (r: Option<seq<Field>>)
    ensures r.Some? ==> |r.value| == |fields|
    decreases fields, 0
  {
    if fields == [] then Some([])
    else
      match (CoerceField(o, p, ctx, record, fields[0]), CoerceFields(o, p, ctx, record, fields[1..]))
      case (Some(f), Some(fs)) => Some([f] + fs)
      case _ => None
  }

  function CoerceField(o: Order, p: Program, ctx: Context, record: string, field: Field): Option<Field>
    decreases field, 0
  {
    match field
    case Field(name, expression) =>
      match DeclaredType(p, record, name)
      case None => None
      case Some(t) =>
        match CoerceTo(o, p, ctx, CoerceTypes(o, p, ctx, expression), t)
        case None => None
        case Some(expression) => Some(Field(name, expression))
  }

  // ----- Programs -----

  /** Inference, the checks, and the coercions of a function. */
  function CoerceDefinition(o: Order, p: Program, d: Definition): Option<Definition> {
    var ctx := BindTypes([], d.arguments);
    match InferTypes(o, p, ctx, d.body)
    case None => None
    case Some(body) =>
      if !Fits(Check(o, p, ctx, body), d.result) || !TriesReturn(PassesErrors, d.result, body) then None
      else
        match CoerceTo(o, p, ctx, CoerceTypes(o, p, ctx, body), d.result)
        case None => None
        case Some(coerced) => Some(Definition(d.name, d.arguments, d.result, coerced))
  }

  /** What comes out is checked again. */
  function AnalyzeDefinition(o: Order, p: Program, d: Definition): Option<Definition> {
    match CoerceDefinition(o, p, d)
    case None => None
    case Some(coerced) =>
      if Fits(Check(o, p, BindTypes([], d.arguments), coerced.body), d.result) then Some(coerced) else None
  }

  function AnalyzeDefinitions(o: Order, p: Program, ds: seq<Definition>): (r: Option<seq<Definition>>)
    ensures r.Some? ==> |r.value| == |ds|
  {
    if ds == [] then Some([])
    else
      match (AnalyzeDefinition(o, p, ds[0]), AnalyzeDefinitions(o, p, ds[1..]))
      case (Some(d), Some(ds)) => Some([d] + ds)
      case _ => None
  }

  /** The typed form of a program, unless it is rejected. */
  function Analyze(o: Order, p: Program): Option<Program> {
    match AnalyzeDefinitions(o, p, p.functions)
    case None => None
    case Some(functions) => Some(Program(p.records, p.foreigns, functions))
  }
}
