/**
 The low-level representation: tag comparisons, registers and returns instead of cases and tries.

 A register is a value that has been computed once and is used by what follows it.  Code that
 belongs to other functions does not see the registers.
 */
module Fmm {
  import opened Sums
  import opened Semantics
  import Hir
  import Mir

  datatype Code =
    | Constant(base: Base)
    | Variable(name: string)
    | Register(index: nat)
    | Compute(value: Code, body: Code)             // into register 0; the others move up
    | If(condition: Code, consequence: Code, alternative: Code)
    | Let(name: string, bound: Code, body: Code)
    | MakeClosure(name: string, arguments: seq<string>, functionBody: Code, body: Code)
    | Call(callee: Code, operands: seq<Code>)
    | MakeVariant(tag: Mir.Type, payload: Code)
    | TagIs(argument: Code, tag: Mir.Type)
    | BitwiseOr(left: Code, right: Code)
    | Payload(argument: Code)
    | MakeRecord(record: Mir.RecordName, operands: seq<Code>)
    | GetField(record: Mir.RecordName, index: nat, argument: Code)
    | UpdateRecord(record: Mir.RecordName, argument: Code, fields: seq<UpdateField>)
    | Numeric(operator: NumericOperator, left: Code, right: Code)
    | ReturnFrom(argument: Code)
    | Unreachable

  datatype UpdateField = UpdateField(index: nat, code: Code)

  datatype Definition = Definition(name: string, arguments: seq<string>, body: Code)
  datatype Program = Program(foreigns: seq<Mir.ForeignDeclaration>, functions: seq<Definition>)

  datatype Value =
    | Plain(base: Base)
    | Structure(record: Mir.RecordName, fields: seq<Value>)
    | Tagged(tag: Mir.Type, payload: Value)
    | Closure(self: string, arguments: seq<string>, body: Code, environment: seq<Binding>)
    | Foreign(name: string, arity: nat, result: Hir.Type)
    | Collection(contents: int)

  datatype Binding = Binding(name: string, value: Value)

  type Environment = seq<Binding>
  type Result = Outcome<Value, Value>
  type Results = Outcome<seq<Value>, Value>

  function Lookup(env: Environment, name: string): Option<Value> {
    if env == [] then None
    else if env[0].name == name then Some(env[0].value)
    else Lookup(env[1..], name)
  }

  function FindDefinition(functions: seq<Definition>, name: string): Option<Definition> {
    if functions == [] then None
    else if functions[0].name == name then Some(functions[0])
    else FindDefinition(functions[1..], name)
  }

  function Resolve(p: Program, env: Environment, name: string): Option<Value> {
    match Lookup(env, name)
    case Some(v) => Some(v)
    case None =>
      match FindDefinition(p.functions, name)
      case Some(d) => Some(Closure("", d.arguments, d.body, []))
      case None =>
        match Mir.FindForeign(p.foreigns, name)
        case Some(d) => Some(Foreign(d.foreignName, d.arity, d.result))
        case None => None
  }

  function BindAll(env: Environment, arguments: seq<string>, values: seq<Value>): Environment
    requires |arguments| == |values|
    decreases |arguments|
  {
    if arguments == [] then env else BindAll([Binding(arguments[0], values[0])] + env, arguments[1..], values[1..])
  }

  predicate AllPlain(values: seq<Value>) {
    forall i :: 0 <= i < |values| ==> values[i].Plain?
  }

  function Bases(values: seq<Value>): (r: seq<Base>)
    requires AllPlain(values)
    ensures |r| == |values|
  {
    seq(|values|, i requires 0 <= i < |values| => values[i].base)
  }

  function CallForeign(w: World, name: string, result: Hir.Type, values: seq<Value>, trace: Trace): Result {
    if !AllPlain(values) || !Hir.IsBaseType(result) then Stuck
    else
      var response := Hir.Respond(w, name, Bases(values), trace, result);
      Value(Plain(response), trace + [Event(name, Bases(values), response)])
  }

  function Store(fields: seq<Value>, indices: seq<nat>, values: seq<Value>): (r: Option<seq<Value>>)
    requires |indices| == |values|
    decreases |indices|
  {
    if indices == [] then Some(fields)
    else if indices[0] >= |fields| then None
    else Store(fields[indices[0] := values[0]], indices[1..], values[1..])
  }

  function Indices(fields: seq<UpdateField>): (r: seq<nat>)
    ensures |r| == |fields|
  {
    seq(|fields|, i requires 0 <= i < |fields| => fields[i].index)
  }

  predicate IsBoolean(v: Value) {
    v.Plain? && v.base.Boolean?
  }

  function Eval(w: World, p: Program, n: nat, env: Environment, regs: seq<Value>, trace: Trace, c: Code): Result
    decreases 2 * n + 1, c, 0
  {
    match c
    case Constant(base) => Value(Plain(base), trace)
    case Variable(name) =>
      (match Resolve(p, env, name)
       case None => Stuck
       case Some(v) => Value(v, trace))
    case Register(index) => if index < |regs| then Value(regs[index], trace) else Stuck
    case Compute(value, body) =>
      (match Eval(w, p, n, env, regs, trace, value)
       case Value(v, trace) => Eval(w, p, n, env, [v] + regs, trace, body)
       case o => o)
    case If(condition, consequence, alternative) =>
      (match Eval(w, p, n, env, regs, trace, condition)
       case Value(Plain(Boolean(b)), trace) => Eval(w, p, n, env, regs, trace, if b then consequence else alternative)
       case Value(_, _) => Stuck
       case o => o)
    case Let(name, bound, body) =>
      (match Eval(w, p, n, env, regs, trace, bound)
       case Value(v, trace) => Eval(w, p, n, [Binding(name, v)] + env, regs, trace, body)
       case o => o)
    case MakeClosure(name, arguments, functionBody, body) =>
      Eval(w, p, n, [Binding(name, Closure(name, arguments, functionBody, env))] + env, regs, trace, body)
    case Call(callee, operands) =>
      (match Eval(w, p, n, env, regs, trace, callee)
       case Value(f, trace) =>
         (match EvalAll(w, p, n, env, regs, trace, operands)
          case Value(values, trace) => Apply(w, p, n, f, values, trace)
          case o => Fail(o))
       case o => o)
    case MakeVariant(tag, payload) =>
      (match Eval(w, p, n, env, regs, trace, payload)
       case Value(v, trace) => Value(Tagged(tag, v), trace)
       case o => o)
    case TagIs(argument, tag) =>
      (match Eval(w, p, n, env, regs, trace, argument)
       case Value(v, trace) => if v.Tagged? then Value(Plain(Boolean(v.tag == tag)), trace) else Stuck
       case o => o)
    case BitwiseOr(left, right) =>
      (match Eval(w, p, n, env, regs, trace, left)
       case Value(a, trace) =>
         (match Eval(w, p, n, env, regs, trace, right)
          case Value(b, trace) =>
            if IsBoolean(a) && IsBoolean(b) then Value(Plain(Boolean(a.base.boolean || b.base.boolean)), trace) else Stuck
          case o => o)
       case o => o)
    case Payload(argument) =>
      (match Eval(w, p, n, env, regs, trace, argument)
       case Value(v, trace) => if v.Tagged? then Value(v.payload, trace) else Stuck
       case o => o)
    case MakeRecord(record, operands) =>
      (match EvalAll(w, p, n, env, regs, trace, operands)
       case Value(values, trace) => Value(Structure(record, values), trace)
       case o => Fail(o))
    case GetField(record, index, argument) =>
      (match Eval(w, p, n, env, regs, trace, argument)
       case Value(v, trace) =>
         if v.Structure? && v.record == record && index < |v.fields| then Value(v.fields[index], trace) else Stuck
       case o => o)
    case UpdateRecord(record, argument, fields) =>
      (match Eval(w, p, n, env, regs, trace, argument)
       case Value(v, trace) =>
         (match EvalUpdateFields(w, p, n, env, regs, trace, fields)
          case Value(values, trace) =>
            if v.Structure? && v.record == record then
              (match Store(v.fields, Indices(fields), values)
               case None => Stuck
               case Some(stored) => Value(Structure(record, stored), trace))
            else Stuck
          case o => Fail(o))
       case o => o)
    case Numeric(operator, left, right) =>
      (match Eval(w, p, n, env, regs, trace, left)
       case Value(a, trace) =>
         (match Eval(w, p, n, env, regs, trace, right)
          case Value(b, trace) =>
            if a.Plain? && a.base.Number? && b.Plain? && b.base.Number? then
              Value(Plain(Operate(w, operator, a.base.number, b.base.number)), trace)
            else Stuck
          case o => o)
       case o => o)
    case ReturnFrom(argument) =>
      (match Eval(w, p, n, env, regs, trace, argument)
       case Value(v, trace) => Return(v, trace)
       case o => o)
    case Unreachable => Stuck
  }

  function EvalAll(w: World, p: Program, n: nat, env: Environment, regs: seq<Value>, trace: Trace, cs: seq<Code>): (r: Results)
    ensures r.Value? ==> |r.value| == |cs|
    decreases 2 * n + 1, cs, 0
  {
    if cs == [] then Value([], trace)
    else
      match Eval(w, p, n, env, regs, trace, cs[0])
      case Value(v, trace) =>
        (match EvalAll(w, p, n, env, regs, trace, cs[1..])
         case Value(vs, trace) => Value([v] + vs, trace)
         case o => o)
      case o => Fail(o)
  }

  function EvalUpdateFields(w: World, p: Program, n: nat, env: Environment, regs: seq<Value>, trace: Trace,
                      fields: seq<UpdateField>)
    : (r: Results)
    ensures r.Value? ==> |r.value| == |fields|
    decreases 2 * n + 1, fields, 0
  {
    if fields == [] then Value([], trace)
    else
      match EvalUpdateField(w, p, n, env, regs, trace, fields[0])
      case Value(v, trace) =>
        (match EvalUpdateFields(w, p, n, env, regs, trace, fields[1..])
         case Value(vs, trace) => Value([v] + vs, trace)
         case o => o)
      case o => Fail(o)
  }

  function EvalUpdateField(w: World, p: Program, n: nat, env: Environment, regs: seq<Value>, trace: Trace,
                      field: UpdateField): Result
    decreases 2 * n + 1, field, 0
  {
    match field
    case UpdateField(_, code) => Eval(w, p, n, env, regs, trace, code)
  }

  function Apply(w: World, p: Program, n: nat, f: Value, values: seq<Value>, trace: Trace): Result
    decreases 2 * n
  {
    match f
    case Closure(self, arguments, body, env) =>
      if |arguments| != |values| then Stuck
      else if n == 0 then Timeout
      else EndCall(Eval(w, p, n - 1, BindAll([Binding(self, f)] + env, arguments, values), [], trace, body))
    case Foreign(name, arity, result) => if arity != |values| then Stuck else CallForeign(w, name, result, values, trace)
    case _ => Stuck
  }

  // ----- Compilation -----

  /** The value of a variant for a single type; a variant itself otherwise. */
  function Downcast(types: seq<Mir.Type>, c: Code): Code {
    if |types| == 1 && !types[0].VariantType? then Payload(c) else c
  }

  /** Whether the tag in register 0 is one of the given ones. */
  function CompareTags(types: seq<Mir.Type>): Code {
    if types == [] then Constant(Boolean(false))
    else BitwiseOr(CompareTags(types[..|types| - 1]), TagIs(Register(0), types[|types| - 1]))
  }

  function Compile(e: Mir.Expression): Code
    decreases e, 0
  {
    match e
    case Constant(base) => Constant(base)
    case Variable(name) => Variable(name)
    case If(condition, consequence, alternative) => If(Compile(condition), Compile(consequence), Compile(alternative))
    case Let(name, bound, body) => Let(name, Compile(bound), Compile(body))
    case LetRecursive(name, arguments, functionBody, body) =>
      MakeClosure(name, arguments, Compile(functionBody), Compile(body))
    case Call(callee, operands) => Call(Compile(callee), CompileAll(operands))
    case Case(argument, alternatives, fallback) =>
      Compute(Compile(argument), CompileAlternatives(alternatives, CompileFallback(fallback)))
    case TryOperation(operand, name, type_, handler) =>
      Compute(Compile(operand),
              If(TagIs(Register(0), type_),
                 ReturnFrom(Let(name, Downcast([type_], Register(0)), Compile(handler))),
                 Register(0)))
    case Variant(type_, payload) => MakeVariant(type_, Compile(payload))
    case Record(record, operands) => MakeRecord(record, CompileAll(operands))
    case RecordField(record, index, argument) => GetField(record, index, Compile(argument))
    case RecordUpdate(record, argument, fields) => UpdateRecord(record, Compile(argument), CompileUpdates(fields))
    case Numeric(operator, left, right) => Numeric(operator, Compile(left), Compile(right))
  }

  function CompileAll(es: seq<Mir.Expression>): (r: seq<Code>)
    ensures |r| == |es|
    decreases es, 0
  {
    if es == [] then [] else [Compile(es[0])] + CompileAll(es[1..])
  }

  function CompileUpdates(fields: seq<Mir.UpdateField>): (r: seq<UpdateField>)
    ensures |r| == |fields| && forall i :: 0 <= i < |fields| ==> r[i].index == fields[i].index
    decreases fields, 0
  {
    if fields == [] then []
    else
      assert forall i :: 0 < i < |fields| ==> fields[i] == fields[1..][i - 1];
      [CompileUpdate(fields[0])] + CompileUpdates(fields[1..])
  }

  function CompileUpdate(field: Mir.UpdateField): (r: UpdateField)
    ensures r.index == field.index
    decreases field, 0
  {
    match field
    case UpdateField(index, expression) => UpdateField(index, Compile(expression))
  }

  /** A chain of tag comparisons, ended by the default or by nothing that can be reached. */
  function CompileAlternatives(alternatives: seq<Mir.Alternative>, end: Code): Code
    decreases alternatives, 0
  {
    if alternatives == [] then end
    else If(CompareTags(alternatives[0].types), CompileAlternative(alternatives[0]), CompileAlternatives(alternatives[1..], end))
  }

  function CompileAlternative(alternative: Mir.Alternative): Code
    decreases alternative, 0
  {
    match alternative
    case Alternative(types, name, expression) => Let(name, Downcast(types, Register(0)), Compile(expression))
  }

  function CompileFallback(fallback: Option<Mir.Fallback>): Code
    decreases fallback, 0
  {
    match fallback
    case None => Unreachable
    case Some(f) => CompileDefault(f)
  }

  function CompileDefault(fallback: Mir.Fallback): Code
    decreases fallback, 0
  {
    match fallback
    case Fallback(name, expression) => Let(name, Register(0), Compile(expression))
  }

  function CompileDefinitions(ds: seq<Mir.Definition>): (r: seq<Definition>)
    ensures |r| == |ds|
  {
    if ds == [] then []
    else [Definition(ds[0].name, ds[0].arguments, Compile(ds[0].body))] + CompileDefinitions(ds[1..])
  }

  function CompileProgram(p: Mir.Program): Program {
    Program(p.foreigns, CompileDefinitions(p.functions))
  }
}
