/** Modules as the formatter sees them: syntax trees with line numbers, and the code they stand for. */
module Modules {
  import opened Sums
  import opened Operators
  import opened Comments
  import opened Documents

  datatype Type =
    | FunctionType(arguments: seq<Type>, result: Type, line: Position)
    | ListType(element: Type, line: Position)
    | MapType(key: Type, value: Type, line: Position)
    | NamedType(name: string, line: Position)
    | UnionType(lhs: Type, rhs: Type, line: Position)

  datatype UnaryOperator = Not | Try

  datatype Expression =
    | BinaryOperation(operator: Operator, lhs: Expression, rhs: Expression, line: Position)
    | Call(callee: Expression, arguments: seq<Expression>, line: Position)
    | If(branches: seq<IfBranch>, otherwise: Block, line: Position)
    | IfList(list: Expression, firstName: string, restName: string, consequence: Block, otherwise: Block, line: Position)
    | IfMap(name: string, map_: Expression, key: Expression, consequence: Block, otherwise: Block, line: Position)
    | IfType(name: string, argument: Expression, typeBranches: seq<IfTypeBranch>, alternative: Option<Block>, line: Position)
    | LambdaExpression(lambda: Lambda)
    | List(elementType: Type, elements: seq<ListElement>, line: Position)
    | ListComprehension(elementType: Type, element: Expression, elementName: string, list: Expression, line: Position)
    | Map(keyType: Type, valueType: Type, mapElements: seq<MapElement>, line: Position)
    | MapIterationComprehension(
        elementType: Type, element: Expression, keyName: string, valueName: string, map_: Expression, line: Position)
    | Number(text: string, line: Position)
    | Record(typeName: string, base: Option<Expression>, fields: seq<RecordField>, line: Position)
    | RecordDeconstruction(record: Expression, fieldName: string, line: Position)
    | String(value: string, line: Position)
    | UnaryOperation(unary: UnaryOperator, operand: Expression, line: Position)
    | Variable(name: string, line: Position)

  datatype IfBranch = IfBranch(condition: Expression, block: Block)
  datatype IfTypeBranch = IfTypeBranch(type_: Type, block: Block)
  datatype ListElement = Multiple(expression: Expression) | Single(expression: Expression)
  datatype MapElement =
    | Insertion(key: Expression, value: Expression, line: Position)
    | Merge(expression: Expression)
    | Removal(expression: Expression)
  datatype RecordField = RecordField(name: string, expression: Expression, line: Position)
  datatype Argument = Argument(name: string, type_: Type)
  datatype Lambda = Lambda(arguments: seq<Argument>, resultType: Type, body: Block, line: Position)
  datatype Statement = Statement(name: Option<string>, expression: Expression, line: Position)
  datatype Block = Block(statements: seq<Statement>, expression: Expression)

  datatype Import = Import(path: string, external: bool, prefix: Option<string>, names: seq<string>, line: Position)
  datatype CallingConvention = C | Native
  datatype ForeignImport = ForeignImport(name: string, convention: CallingConvention, type_: Type, line: Position)
  datatype TypeDefinition =
    | RecordDefinition(name: string, fields: seq<Argument>, line: Position)
    | TypeAlias(name: string, type_: Type, line: Position)
  datatype FunctionDefinition =
    FunctionDefinition(name: string, lambda: Lambda, foreignExport: Option<CallingConvention>, line: Position)
  datatype Module = Module(
    imports: seq<Import>, foreignImports: seq<ForeignImport>,
    typeDefinitions: seq<TypeDefinition>, functionDefinitions: seq<FunctionDefinition>)

  function LineOf(e: Expression): Position {
    match e
    case LambdaExpression(lambda) => lambda.line
    case _ => e.line
  }

  function MapElementLine(element: MapElement): Position {
    match element
    case Insertion(_, _, line) => line
    case Merge(expression) => LineOf(expression)
    case Removal(expression) => LineOf(expression)
  }

  function CollectUnionTypes(t: Type): (r: seq<Type>)
    ensures |r| > 0 && (t.UnionType? ==> |r| > 1)
  {
    if t.UnionType? then CollectUnionTypes(t.lhs) + CollectUnionTypes(t.rhs) else [t]
  }

  // ----- The code of types -----

  function TypeText(t: Type): string
    decreases t, 1
  {
    match t
    case FunctionType(arguments, result, _) => "\\(" + TypesText(arguments) + ") " + TypeText(result)
    case ListType(element, _) => "[" + TypeText(element) + "]"
    case MapType(key, value, _) => "{" + TypeText(key) + ": " + TypeText(value) + "}"
    case NamedType(name, _) => name
    case UnionType(lhs, rhs, _) => UnionText(lhs, false) + " |" + UnionText(rhs, true)
  }

  /** A function type that is not the last member of a union is put in parentheses. */
  function UnionText(t: Type, last: bool): string
    decreases t, 2
  {
    if t.UnionType? then UnionText(t.lhs, false) + " |" + UnionText(t.rhs, last)
    else if !last && t.FunctionType? then "(" + TypeText(t) + ")"
    else TypeText(t)
  }

  function TypesText(ts: seq<Type>): string
    decreases ts, 0
  {
    if ts == [] then ""
    else if |ts| == 1 then TypeText(ts[0])
    else TypeText(ts[0]) + ", " + TypesText(ts[1..])
  }

  // ----- The code of expressions -----

  function OperatorText(operator: Operator): string {
    match operator
    case Or => "|"
    case And => "&"
    case Equal => "=="
    case NotEqual => "!="
    case LessThan => "<"
    case LessThanOrEqual => "<="
    case GreaterThan => ">"
    case GreaterThanOrEqual => ">="
    case Add => "+"
    case Subtract => "-"
    case Multiply => "*"
    case Divide => "/"
  }

  function Parenthesized(condition: bool, text: string): string {
    if condition then "(" + text + ")" else text
  }

  /** An operation among operations is put in parentheses if it binds less tightly. */
  predicate NeedsParens(operand: Expression, parent: Operator) {
    operand.BinaryOperation? && Priority(operand.operator) < Priority(parent)
  }

  function ExpressionText(e: Expression): string
    decreases e, 0
  {
    match e
    case BinaryOperation(operator, lhs, rhs, _) =>
      Parenthesized(NeedsParens(lhs, operator), ExpressionText(lhs))
      + (OperatorText(operator) + " " + Parenthesized(NeedsParens(rhs, operator), ExpressionText(rhs)))
    case Call(callee, arguments, _) => ExpressionText(callee) + "(" + ArgumentsText(arguments) + ")"
    case If(branches, otherwise, _) => BranchesText(branches) + BlockText(otherwise)
    case IfList(list, firstName, restName, consequence, otherwise, _) =>
      ("if [" + firstName + ", ..." + restName + "] = ") + ExpressionText(list) + " "
      + BlockText(consequence) + " else " + BlockText(otherwise)
    case IfMap(name, map_, key, consequence, otherwise, _) =>
      ("if " + name + " = ") + ExpressionText(map_) + "[" + ExpressionText(key) + "] "
      + (BlockText(consequence) + " else " + BlockText(otherwise))
    case IfType(name, argument, branches, alternative, _) =>
      ("if " + name + " = ") + ExpressionText(argument) + " as "
      + TypeBranchesText(branches) + AlternativeText(alternative)
    case LambdaExpression(lambda) => LambdaText(lambda)
    case List(elementType, elements, _) => "[" + TypeText(elementType) + ListText(elements) + "]"
    case ListComprehension(elementType, element, elementName, list, _) =>
      "[" + TypeText(elementType)
      + (ExpressionText(element) + ("for " + elementName + " in " + ExpressionText(list))) + "]"
    case Map(keyType, valueType, elements, _) =>
      "{" + (TypeText(keyType) + ": " + TypeText(valueType)) + MapText(elements) + "}"
    case MapIterationComprehension(elementType, element, keyName, valueName, map_, _) =>
      "[" + TypeText(elementType)
      + (ExpressionText(element) + ("for " + keyName + ", " + valueName + " in " + ExpressionText(map_))) + "]"
    case Number(text, _) => text
    case Record(typeName, base, fields, _) => typeName + "{" + RecordText(BaseText(base), fields) + "}"
    case RecordDeconstruction(record, fieldName, _) => ExpressionText(record) + "." + fieldName
    case String(value, _) => "\"" + value + "\""
    case UnaryOperation(operator, operand, _) =>
      var text := Parenthesized(operand.BinaryOperation?, ExpressionText(operand));
      if operator.Not? then "!" + text else text + "?"
    case Variable(name, _) => name
  }

  function ArgumentsText(es: seq<Expression>): string
    decreases es, 0
  {
    if es == [] then ""
    else
      var n := |es| - 1;
      Separated(ArgumentsText(es[..n]), n == 0, ",", ExpressionText(es[n]))
  }

  function BranchesText(branches: seq<IfBranch>): string
    decreases branches, 0
  {
    if branches == [] then ""
    else BranchesText(branches[..|branches| - 1]) + BranchText(branches[|branches| - 1])
  }

  function BranchText(branch: IfBranch): string
    decreases branch, 0
  {
    match branch
    case IfBranch(condition, block) => "if " + ExpressionText(condition) + " " + BlockText(block) + " else "
  }

  function TypeBranchesText(branches: seq<IfTypeBranch>): string
    decreases branches, 0
  {
    if branches == [] then ""
    else
      var n := |branches| - 1;
      Separated(TypeBranchesText(branches[..n]), n == 0, " else if ", TypeBranchText(branches[n]))
  }

  function TypeBranchText(branch: IfTypeBranch): string
    decreases branch, 0
  {
    match branch
    case IfTypeBranch(type_, block) => TypeText(type_) + " " + BlockText(block)
  }

  function AlternativeText(alternative: Option<Block>): string
    decreases alternative, 0
  {
    match alternative
    case None => ""
    case Some(block) => " else " + BlockText(block)
  }

  function ListText(elements: seq<ListElement>): string
    decreases elements, 0
  {
    if elements == [] then ""
    else
      var n := |elements| - 1;
      Separated(ListText(elements[..n]), n == 0, ",", ElementText(elements[n]))
  }

  function ElementText(element: ListElement): string
    decreases element, 0
  {
    match element
    case Multiple(expression) => "..." + ExpressionText(expression)
    case Single(expression) => ExpressionText(expression)
  }

  function MapText(elements: seq<MapElement>): string
    decreases elements, 0
  {
    if elements == [] then ""
    else
      var n := |elements| - 1;
      Separated(MapText(elements[..n]), n == 0, ",", MapElementText(elements[n]))
  }

  function MapElementText(element: MapElement): string
    decreases element, 0
  {
    match element
    case Insertion(key, value, _) => ExpressionText(key) + ": " + ExpressionText(value)
    case Merge(expression) => "..." + ExpressionText(expression)
    case Removal(expression) => ExpressionText(expression)
  }

  /** The base of an updated record counts as its first element. */
  function RecordText(base: Option<string>, fields: seq<RecordField>): string
    decreases fields, 0
  {
    if fields == [] then if base.Some? then base.value else ""
    else
      var n := |fields| - 1;
      Separated(RecordText(base, fields[..n]), n == 0 && base.None?, ",", FieldText(fields[n]))
  }

  function BaseText(base: Option<Expression>): Option<string>
    decreases base, 0
  {
    match base
    case None => None
    case Some(record) => Some("..." + ExpressionText(record))
  }

  function FieldText(field: RecordField): string
    decreases field, 0
  {
    match field
    case RecordField(name, expression, _) => name + ": " + ExpressionText(expression)
  }

  function LambdaText(lambda: Lambda): string
    decreases lambda, 0
  {
    match lambda
    case Lambda(arguments, resultType, body, _) => SignatureText(arguments, resultType) + " " + BlockText(body)
  }

  function SignatureText(arguments: seq<Argument>, resultType: Type): string {
    "\\(" + DeclarationsText(arguments) + ") " + TypeText(resultType)
  }

  function DeclarationsText(arguments: seq<Argument>): string {
    if arguments == [] then ""
    else
      var n := |arguments| - 1;
      Separated(DeclarationsText(arguments[..n]), n == 0, ",", arguments[n].name + " " + TypeText(arguments[n].type_))
  }

  function BlockText(block: Block): string
    decreases block, 0
  {
    match block
    case Block(statements, expression) => "{" + (StatementsText(statements) + ExpressionText(expression)) + "}"
  }

  function StatementsText(statements: seq<Statement>): string
    decreases statements, 0
  {
    if statements == [] then ""
    else StatementsText(statements[..|statements| - 1]) + StatementText(statements[|statements| - 1])
  }

  function StatementText(statement: Statement): string
    decreases statement, 0
  {
    match statement
    case Statement(name, expression, _) =>
      (if name.Some? then name.value + " = " else "") + ExpressionText(expression)
  }

  // ----- The code of modules -----

  function NamesText(names: seq<string>): string {
    if names == [] then ""
    else
      var n := |names| - 1;
      Separated(NamesText(names[..n]), n == 0, ", ", names[n])
  }

  function ImportText(i: Import): string {
    "import " + i.path + (if i.prefix.Some? then " as " + i.prefix.value else "")
    + (if i.names == [] then "" else " { " + NamesText(i.names) + " }")
  }

  function ForeignImportText(i: ForeignImport): string {
    "import foreign" + (if i.convention.C? then " \"c\"" else "") + " " + i.name + " " + TypeText(i.type_)
  }

  function FieldsText(fields: seq<Argument>): string {
    if fields == [] then ""
    else
      FieldsText(fields[..|fields| - 1])
      + (fields[|fields| - 1].name + " " + TypeText(fields[|fields| - 1].type_))
  }

  function FunctionDefinitionText(d: FunctionDefinition): string {
    (match d.foreignExport
     case None => ""
     case Some(C) => "foreign \"c\" "
     case Some(Native) => "foreign ")
    + d.name + " = " + LambdaText(d.lambda)
  }
}
