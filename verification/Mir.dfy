/** The mid-level intermediate representation: tagged variants, unwrapped values, and first-match cases. */
module Mir {
  import opened Sums
  import opened Semantics
  import Hir

  /**
   Names of records.  Functions, lists and maps are wrapped in records of their own before they are
   put in variants; these records are named after ids of their types, which are taken to be unique.
   */
  datatype RecordName =
    | Declared(name: string)
    | ErrorRecord
    | ConcreteFunction(type_: Hir.Type)
    | ConcreteList(type_: Hir.Type)
    | ConcreteMap(type_: Hir.Type)

  /** The types that tag variants; `VariantType` is the type of variants themselves. */
  datatype Type = NoneType | BooleanType | NumberType | StringType | RecordType(name: RecordName) | VariantType

  datatype Expression =
    | Constant(base: Base)
    | Variable(name: string)
    | If(condition: Expression, consequence: Expression, alternative: Expression)
    | Let(name: string, bound: Expression, body: Expression)
    | LetRecursive(name: string, arguments: seq<string>, functionBody: Expression, body: Expression)
    | Call(callee: Expression, operands: seq<Expression>)
    | Case(argument: Expression, alternatives: seq<Alternative>, fallback: Option<Fallback>)
    | TryOperation(operand: Expression, name: string, type_: Type, handler: Expression)
    | Variant(type_: Type, payload: Expression)
    | Record(record: RecordName, operands: seq<Expression>)
    | RecordField(record: RecordName, index: nat, argument: Expression)
    | RecordUpdate(record: RecordName, argument: Expression, fields: seq<UpdateField>)
    | Numeric(operator: NumericOperator, left: Expression, right: Expression)

  datatype Alternative = Alternative(types: seq<Type>, name: string, expression: Expression)
  datatype Fallback = Fallback(name: string, expression: Expression)
  datatype UpdateField = UpdateField(index: nat, expression: Expression)

  datatype Definition = Definition(name: string, arguments: seq<string>, body: Expression)
  datatype ForeignDeclaration = ForeignDeclaration(name: string, foreignName: string, arity: nat, result: Hir.Type)
  datatype Program = Program(foreigns: seq<ForeignDeclaration>, functions: seq<Definition>)

  datatype Value =
    | Plain(base: Base)
    | Structure(record: RecordName, fields: seq<Value>)
    | Tagged(tag: Type, payload: Value)
    | Closure(self: string, arguments: seq<string>, body: Expression, environment: seq<Binding>)
    | Foreign(name: string, arity: nat, result: Hir.Type)
    | Collection(contents: int)

  datatype Binding = Binding(name: string, value: Value)

  type Environment = seq<Binding>
  type Result = Outcome<Value, Value>
  type Results = Outcome<seq<Value>, Value>

  function Lookup(env: Environment, name: string): Option<Value> {
    if env == [] then None
    else if env[0].name == name then Some(env[0].value)
    else Lookup(env[1..], name)
  }

  function FindDefinition(functions: seq<Definition>, name: string): Option<Definition> {
    if functions == [] then None
    else if functions[0].name == name then Some(functions[0])
    else FindDefinition(functions[1..], name)
  }

  function FindForeign(foreigns: seq<ForeignDeclaration>, name: string): Option<ForeignDeclaration> {
    if foreigns == [] then None
    else if foreigns[0].name == name then Some(foreigns[0])
    else FindForeign(foreigns[1..], name)
  }

  function Resolve(p: Program, env: Environment, name: string): Option<Value> {
    match Lookup(env, name)
    case Some(v) => Some(v)
    case None =>
      match FindDefinition(p.functions, name)
      case Some(d) => Some(Closure("", d.arguments, d.body, []))
      case None =>
        match FindForeign(p.foreigns, name)
        case Some(d) => Some(Foreign(d.foreignName, d.arity, d.result))
        case None => None
  }

  function BindAll(env: Environment, arguments: seq<string>, values: seq<Value>): Environment
    requires |arguments| == |values|
    decreases |arguments|
  {
    if arguments == [] then env else BindAll([Binding(arguments[0], values[0])] + env, arguments[1..], values[1..])
  }

  predicate AllPlain(values: seq<Value>) {
    forall i :: 0 <= i < |values| ==> values[i].Plain?
  }

  function Bases(values: seq<Value>): (r: seq<Base>)
    requires AllPlain(values)
    ensures |r| == |values|
  {
    seq(|values|, i requires 0 <= i < |values| => values[i].base)
  }

  function CallForeign(w: World, name: string, result: Hir.Type, values: seq<Value>, trace: Trace): Result {
    if !AllPlain(values) || !Hir.IsBaseType(result) then Stuck
    else
      var response := Hir.Respond(w, name, Bases(values), trace, result);
      Value(Plain(response), trace + [Event(name, Bases(values), response)])
  }

  /** The first alternative with the tag of a variant. */
  function SelectAlternative(alternatives: seq<Alternative>, tag: Type): (r: nat)
    ensures r <= |alternatives|
    ensures r < |alternatives| ==> tag in alternatives[r].types
    ensures forall i :: 0 <= i < r ==> tag !in alternatives[i].types
  {
    if alternatives == [] then 0
    else if tag in alternatives[0].types then 0
    else
      assert forall i :: 0 < i < |alternatives| ==> alternatives[i] == alternatives[1..][i - 1];
      1 + SelectAlternative(alternatives[1..], tag)
  }

  /** A variant narrowed to the types of an alternative: only a single type is unwrapped. */
  function Narrow(v: Value, types: seq<Type>): Value
    requires v.Tagged?
  {
    if |types| == 1 && !types[0].VariantType? then v.payload else v
  }

  /** Stores fields one after the other. */
  function Store(fields: seq<Value>, indices: seq<nat>, values: seq<Value>): (r: Option<seq<Value>>)
    requires |indices| == |values|
    ensures r.Some? ==> |r.value| == |fields|
    decreases |indices|
  {
    if indices == [] then Some(fields)
    else if indices[0] >= |fields| then None
    else Store(fields[indices[0] := values[0]], indices[1..], values[1..])
  }

  function Indices(fields: seq<UpdateField>): (r: seq<nat>)
    ensures |r| == |fields|
  {
    seq(|fields|, i requires 0 <= i < |fields| => fields[i].index)
  }

  function Eval(w: World, p: Program, n: nat, env: Environment, trace: Trace, e: Expression): Result
    decreases 2 * n + 1, e, 0
  {
    match e
    case Constant(base) => Value(Plain(base), trace)
    case Variable(name) =>
      (match Resolve(p, env, name)
       case None => Stuck
       case Some(v) => Value(v, trace))
    case If(condition, consequence, alternative) =>
      (match Eval(w, p, n, env, trace, condition)
       case Value(Plain(Boolean(b)), trace) => Eval(w, p, n, env, trace, if b then consequence else alternative)
       case Value(_, _) => Stuck
       case o => o)
    case Let(name, bound, body) =>
      (match Eval(w, p, n, env, trace, bound)
       case Value(v, trace) => Eval(w, p, n, [Binding(name, v)] + env, trace, body)
       case o => o)
    case LetRecursive(name, arguments, functionBody, body) =>
      Eval(w, p, n, [Binding(name, Closure(name, arguments, functionBody, env))] + env, trace, body)
    case Call(callee, operands) =>
      (match Eval(w, p, n, env, trace, callee)
       case Value(f, trace) =>
         (match EvalAll(w, p, n, env, trace, operands)
          case Value(values, trace) => Apply(w, p, n, f, values, trace)
          case o => Fail(o))
       case o => o)
    case Case(argument, alternatives, fallback) =>
      (match Eval(w, p, n, env, trace, argument)
       case Value(v, trace) =>
         if !v.Tagged? then Stuck
         else
           var i := SelectAlternative(alternatives, v.tag);
           if i < |alternatives| then EvalAlternative(w, p, n, env, trace, v, alternatives[i])
           else if fallback.Some? then EvalFallback(w, p, n, env, trace, v, fallback.value)
           else Stuck
       case o => o)
    case TryOperation(operand, name, type_, handler) =>
      (match Eval(w, p, n, env, trace, operand)
       case Value(v, trace) =>
         if !v.Tagged? then Stuck
         else if v.tag != type_ then Value(v, trace)
         else
           (match Eval(w, p, n, [Binding(name, Narrow(v, [type_]))] + env, trace, handler)
            case Value(r, trace) => Return(r, trace)
            case o => o)
       case o => o)
    case Variant(type_, payload) =>
      (match Eval(w, p, n, env, trace, payload)
       case Value(v, trace) => Value(Tagged(type_, v), trace)
       case o => o)
    case Record(record, operands) =>
      (match EvalAll(w, p, n, env, trace, operands)
       case Value(values, trace) => Value(Structure(record, values), trace)
       case o => Fail(o))
    case RecordField(record, index, argument) =>
      (match Eval(w, p, n, env, trace, argument)
       case Value(v, trace) =>
         if v.Structure? && v.record == record && index < |v.fields| then Value(v.fields[index], trace) else Stuck
       case o => o)
    case RecordUpdate(record, argument, fields) =>
      (match Eval(w, p, n, env, trace, argument)
       case Value(v, trace) =>
         (match EvalUpdateFields(w, p, n, env, trace, fields)
          case Value(values, trace) =>
            if v.Structure? && v.record == record then
              (match Store(v.fields, Indices(fields), values)
               case None => Stuck
               case Some(stored) => Value(Structure(record, stored), trace))
            else Stuck
          case o => Fail(o))
       case o => o)
    case Numeric(operator, left, right) =>
      (match Eval(w, p, n, env, trace, left)
       case Value(a, trace) =>
         (match Eval(w, p, n, env, trace, right)
          case Value(b, trace) =>
            if a.Plain? && a.base.Number? && b.Plain? && b.base.Number? then
              Value(Plain(Operate(w, operator, a.base.number, b.base.number)), trace)
            else Stuck
          case o => o)
       case o => o)
  }

  function EvalAlternative(w: World, p: Program, n: nat, env: Environment, trace: Trace, v: Value,
                      alternative: Alternative): Result
    requires v.Tagged?
    decreases 2 * n + 1, alternative, 0
  {
    match alternative
    case Alternative(types, name, expression) => Eval(w, p, n, [Binding(name, Narrow(v, types))] + env, trace, expression)
  }

  function EvalFallback(w: World, p: Program, n: nat, env: Environment, trace: Trace, v: Value, fallback: Fallback): Result
    decreases 2 * n + 1, fallback, 0
  {
    match fallback
    case Fallback(name, expression) => Eval(w, p, n, [Binding(name, v)] + env, trace, expression)
  }

  function EvalAll(w: World, p: Program, n: nat, env: Environment, trace: Trace, es: seq<Expression>): (r: Results)
    ensures r.Value? ==> |r.value| == |es|
    decreases 2 * n + 1, es, 0
  {
    if es == [] then Value([], trace)
    else
      match Eval(w, p, n, env, trace, es[0])
      case Value(v, trace) =>
        (match EvalAll(w, p, n, env, trace, es[1..])
         case Value(vs, trace) => Value([v] + vs, trace)
         case o => o)
      case o => Fail(o)
  }

  function EvalUpdateFields(w: World, p: Program, n: nat, env: Environment, trace: Trace, fields: seq<UpdateField>): (r: Results)
    ensures r.Value? ==> |r.value| == |fields|
    decreases 2 * n + 1, fields, 0
  {
    if fields == [] then Value([], trace)
    else
      match EvalUpdateField(w, p, n, env, trace, fields[0])
      case Value(v, trace) =>
        (match EvalUpdateFields(w, p, n, env, trace, fields[1..])
         case Value(vs, trace) => Value([v] + vs, trace)
         case o => o)
      case o => Fail(o)
  }

  function EvalUpdateField(w: World, p: Program, n: nat, env: Environment, trace: Trace, field: UpdateField): Result
    decreases 2 * n + 1, field, 0
  {
    match field
    case UpdateField(_, expression) => Eval(w, p, n, env, trace, expression)
  }

  /** Calls a function, which knows itself by its own name. */
  function Apply(w: World, p: Program, n: nat, f: Value, values: seq<Value>, trace: Trace): Result
    decreases 2 * n
  {
    match f
    case Closure(self, arguments, body, env) =>
      if |arguments| != |values| then Stuck
      else if n == 0 then Timeout
      else EndCall(Eval(w, p, n - 1, BindAll([Binding(self, f)] + env, arguments, values), trace, body))
    case Foreign(name, arity, result) => if arity != |values| then Stuck else CallForeign(w, name, result, values, trace)
    case _ => Stuck
  }
}
