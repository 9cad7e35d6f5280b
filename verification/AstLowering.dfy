/** From syntax trees to the high-level representation: blocks become nested bindings, chains become nested conditions. */
module AstLowering {
  import opened Sums
  import opened Semantics
  import opened Hir
  import Ast

  function Lower(e: Ast.Expression): Expression
    decreases e, 0
  {
    match e
    case Literal(base) => Constant(base)
    case Variable(name) => Variable(name)
    case Binary(operator, left, right) => LowerBinary(operator, Lower(left), Lower(right))
    case Not(operand) => Not(Lower(operand))
    case Try(operand) => Try(None, Lower(operand))
    case Call(callee, operands) => Call(Lower(callee), LowerAll(operands))
    case If(branches, otherwise) => LowerIf(e, 0)
    case IfType(name, argument, branches, fallback) =>
      IfType(name, Lower(argument), LowerTypeBranches(branches), LowerFallback(fallback))
    case Lambda(arguments, result, body) => Lambda(arguments, result, LowerBlock(body, 0))
    case RecordLiteral(record, None, fields) => Construct(record, LowerFields(fields))
    case RecordLiteral(record, Some(base), fields) => Update(record, Lower(base), LowerFields(fields))
    case Deconstruction(argument, field) => Select(None, Lower(argument), field)
  }

  function LowerBinary(operator: Ast.BinaryOperator, left: Expression, right: Expression): Expression {
    match operator
    case Conjunction => And(left, right)
    case Disjunction => Or(left, right)
    case Difference => NotEqual(left, right)
    case Calculation(operator) => Numeric(operator, left, right)
  }

  /** A block from the given statement on. */
  function LowerBlock(block: Ast.Block, i: nat): Expression
    requires i <= |block.statements|
    decreases block, |block.statements| - i + 1
  {
    if i == |block.statements| then LowerLast(block)
    else Let(block.statements[i].name, None, LowerStatement(block.statements[i]), LowerBlock(block, i + 1))
  }

  function LowerLast(block: Ast.Block): Expression
    decreases block, 0
  {
    match block
    case Block(_, expression) => Lower(expression)
  }

  function LowerStatement(statement: Ast.Statement): Expression
    decreases statement, 0
  {
    match statement
    case Statement(_, expression) => Lower(expression)
  }

  /** A chain of conditions from the given branch on. */
  function LowerIf(e: Ast.Expression, i: nat): Expression
    requires e.If? && i <= |e.branches|
    decreases e, 0, |e.branches| - i
  {
    if i == |e.branches| then LowerBlock(e.otherwise, 0)
    else If(LowerCondition(e.branches[i]), LowerConsequence(e.branches[i]), LowerIf(e, i + 1))
  }

  function LowerCondition(branch: Ast.IfBranch): Expression
    decreases branch, 0
  {
    match branch
    case IfBranch(condition, _) => Lower(condition)
  }

  function LowerConsequence(branch: Ast.IfBranch): Expression
    decreases branch, 0
  {
    match branch
    case IfBranch(_, block) => LowerBlock(block, 0)
  }

  function LowerTypeBranches(branches: seq<Ast.TypeBranch>): (r: seq<Branch>)
    ensures |r| == |branches|
    decreases branches, 0
  {
    if branches == [] then [] else [LowerTypeBranch(branches[0])] + LowerTypeBranches(branches[1..])
  }

  function LowerTypeBranch(branch: Ast.TypeBranch): Branch
    decreases branch, 0
  {
    match branch
    case TypeBranch(type_, block) => Branch(Some(type_), LowerBlock(block, 0))
  }

  /** The type of an else branch is left to be inferred. */
  function LowerFallback(fallback: Option<Ast.Block>): Option<Branch>
    decreases fallback, 0
  {
    match fallback
    case None => None
    case Some(block) => Some(Branch(None, LowerBlock(block, 0)))
  }

  function LowerAll(es: seq<Ast.Expression>): (r: seq<Expression>)
    ensures |r| == |es|
    decreases es, 0
  {
    if es == [] then [] else [Lower(es[0])] + LowerAll(es[1..])
  }

  function LowerFields(fields: seq<Ast.Field>): (r: seq<Field>)
    ensures |r| == |fields| && forall i :: 0 <= i < |fields| ==> r[i].name == fields[i].name
    decreases fields, 0
  {
    if fields == [] then []
    else
      assert forall i :: 0 < i < |fields| ==> fields[i] == fields[1..][i - 1];
      [LowerField(fields[0])] + LowerFields(fields[1..])
  }

  function LowerField(field: Ast.Field): (r: Field)
    ensures r.name == field.name
    decreases field, 0
  {
    match field
    case Field(name, expression) => Field(name, Lower(expression))
  }

  function LowerDefinitions(ds: seq<Ast.Definition>): (r: seq<Definition>)
    ensures |r| == |ds|
  {
    if ds == [] then []
    else [Definition(ds[0].name, ds[0].arguments, ds[0].result, LowerBlock(ds[0].body, 0))] + LowerDefinitions(ds[1..])
  }

  function LowerImports(imports: seq<Ast.ForeignImport>): (r: seq<ForeignDeclaration>)
    ensures |r| == |imports|
  {
    if imports == [] then []
    else [ForeignDeclaration(imports[0].name, imports[0].name, imports[0].types, imports[0].result)] + LowerImports(imports[1..])
  }

  function LowerProgram(p: Ast.Program): Program {
    Program(p.records, LowerImports(p.imports), LowerDefinitions(p.functions))
  }

  // ----- The compiler -----

  /** Every chain of conditions has a branch. */
  predicate Compiles(e: Ast.Expression)
    decreases e
  {
    match e
    case Literal(_) => true
    case Variable(_) => true
    case Binary(_, left, right) => Compiles(left) && Compiles(right)
    case Not(operand) => Compiles(operand)
    case Try(operand) => Compiles(operand)
    case Call(callee, operands) => Compiles(callee) && forall i :: 0 <= i < |operands| ==> Compiles(operands[i])
    case If(branches, otherwise) =>
      branches != [] && BlockCompiles(otherwise) && forall i :: 0 <= i < |branches| ==> BranchCompiles(branches[i])
    case IfType(_, argument, branches, fallback) =>
      && Compiles(argument) && (fallback.Some? ==> BlockCompiles(fallback.value))
      && forall i :: 0 <= i < |branches| ==> TypeBranchCompiles(branches[i])
    case Lambda(_, _, body) => BlockCompiles(body)
    case RecordLiteral(_, base, fields) =>
      (base.Some? ==> Compiles(base.value)) && forall i :: 0 <= i < |fields| ==> FieldCompiles(fields[i])
    case Deconstruction(argument, _) => Compiles(argument)
  }

  predicate BlockCompiles(block: Ast.Block)
    decreases block
  {
    match block
    case Block(statements, expression) =>
      Compiles(expression) && forall i :: 0 <= i < |statements| ==> StatementCompiles(statements[i])
  }

  predicate StatementCompiles(statement: Ast.Statement)
    decreases statement
  {
    match statement
    case Statement(_, expression) => Compiles(expression)
  }

  predicate BranchCompiles(branch: Ast.IfBranch)
    decreases branch
  {
    match branch
    case IfBranch(condition, block) => Compiles(condition) && BlockCompiles(block)
  }

  predicate TypeBranchCompiles(branch: Ast.TypeBranch)
    decreases branch
  {
    match branch
    case TypeBranch(_, block) => BlockCompiles(block)
  }

  predicate FieldCompiles(field: Ast.Field)
    decreases field
  {
    match field
    case Field(_, expression) => Compiles(expression)
  }

  /** A block, from its last statement to its first one. */
  method CompileBlock(block: Ast.Block) returns (r: Option<Expression>)
    ensures r == if BlockCompiles(block) then Some(LowerBlock(block, 0)) else None
    decreases block, 1
  {
    match block
    case Block(statements, last) =>
      var compiled := CompileExpression(last);
      if compiled.None? {
        return None;
      }
      var expression := compiled.value;
      var i := |statements|;
      while i > 0
        invariant 0 <= i <= |statements| && expression == LowerBlock(block, i)
        invariant forall j :: i <= j < |statements| ==> StatementCompiles(statements[j])
      {
        i := i - 1;
        compiled := CompileStatement(statements[i]);
        if compiled.None? {
          return None;
        }
        expression := Let(statements[i].name, None, compiled.value, expression);
      }
      r := Some(expression);
  }

  method CompileStatement(statement: Ast.Statement) returns (r: Option<Expression>)
    ensures r == if StatementCompiles(statement) then Some(LowerStatement(statement)) else None
    decreases statement, 1
  {
    match statement
    case Statement(_, expression) => r := CompileExpression(expression);
  }

  method CompileExpression(e: Ast.Expression) returns (r: Option<Expression>)
    ensures r == if Compiles(e) then Some(Lower(e)) else None
    decreases e, 1
  {
    match e
    case Literal(base) => r := Some(Constant(base));
    case Variable(name) => r := Some(Variable(name));
    case Binary(operator, left, right) =>
      var l := CompileExpression(left);
      var r' := CompileExpression(right);
      r := if l.Some? && r'.Some? then Some(LowerBinary(operator, l.value, r'.value)) else None;
    case Not(operand) =>
      var o := CompileExpression(operand);
      r := if o.Some? then Some(Not(o.value)) else None;
    case Try(operand) =>
      var o := CompileExpression(operand);
      r := if o.Some? then Some(Try(None, o.value)) else None;
    case Call(callee, operands) =>
      var f := CompileExpression(callee);
      var os := CompileExpressions(operands);
      r := if f.Some? && os.Some? then Some(Call(f.value, os.value)) else None;
    case If(branches, otherwise) =>
      if branches == [] {
        r := None;
      } else {
        r := CompileIf(e, 0);
      }
    case IfType(name, argument, branches, fallback) =>
      var a := CompileExpression(argument);
      var bs := CompileTypeBranches(branches);
      var f := CompileFallback(fallback);
      r := if a.Some? && bs.Some? && f.Some? then Some(IfType(name, a.value, bs.value, f.value)) else None;
    case Lambda(arguments, result, body) =>
      var b := CompileBlock(body);
      r := if b.Some? then Some(Lambda(arguments, result, b.value)) else None;
    case RecordLiteral(record, None, fields) =>
      var fs := CompileFields(fields);
      r := if fs.Some? then Some(Construct(record, fs.value)) else None;
    case RecordLiteral(record, Some(base), fields) =>
      var fs := CompileFields(fields);
      var b := CompileExpression(base);
      r := if fs.Some? && b.Some? then Some(Update(record, b.value, fs.value)) else None;
    case Deconstruction(argument, field) =>
      var a := CompileExpression(argument);
      r := if a.Some? then Some(Select(None, a.value, field)) else None;
  }

  /** The branches of a chain from the given one on. */
  method CompileIf(e: Ast.Expression, i: nat) returns (r: Option<Expression>)
    requires e.If? && i < |e.branches|
    ensures r == if BlockCompiles(e.otherwise) && (forall j :: i <= j < |e.branches| ==> BranchCompiles(e.branches[j]))
                 then Some(LowerIf(e, i)) else None
    decreases e, 0, |e.branches| - i
  {
    var condition := CompileCondition(e.branches[i]);
    var consequence := CompileConsequence(e.branches[i]);
    var alternative: Option<Expression>;
    assert BranchCompiles(e.branches[i]) <==> ConditionCompiles(e.branches[i]) && ConsequenceCompiles(e.branches[i]);
    if i + 1 == |e.branches| {
      alternative := CompileBlock(e.otherwise);
    } else {
      alternative := CompileIf(e, i + 1);
    }
    r := if condition.Some? && consequence.Some? && alternative.Some?
         then Some(If(condition.value, consequence.value, alternative.value)) else None;
  }

  predicate ConditionCompiles(branch: Ast.IfBranch) {
    match branch
    case IfBranch(condition, _) => Compiles(condition)
  }

  predicate ConsequenceCompiles(branch: Ast.IfBranch) {
    match branch
    case IfBranch(_, block) => BlockCompiles(block)
  }

  method CompileCondition(branch: Ast.IfBranch) returns (r: Option<Expression>)
    ensures r == if ConditionCompiles(branch) then Some(LowerCondition(branch)) else None
    decreases branch, 1
  {
    match branch
    case IfBranch(condition, _) => r := CompileExpression(condition);
  }

  method CompileConsequence(branch: Ast.IfBranch) returns (r: Option<Expression>)
    ensures r == if ConsequenceCompiles(branch) then Some(LowerConsequence(branch)) else None
    decreases branch, 1
  {
    match branch
    case IfBranch(_, block) => r := CompileBlock(block);
  }

  method CompileFallback(fallback: Option<Ast.Block>) returns (r: Option<Option<Branch>>)
    ensures r == if fallback.Some? ==> BlockCompiles(fallback.value) then Some(LowerFallback(fallback)) else None
    decreases fallback, 1
  {
    match fallback
    case None => r := Some(None);
    case Some(block) =>
      var b := CompileBlock(block);
      r := if b.Some? then Some(Some(Branch(None, b.value))) else None;
  }

  method CompileTypeBranches(branches: seq<Ast.TypeBranch>) returns (r: Option<seq<Branch>>)
    ensures r == if forall i :: 0 <= i < |branches| ==> TypeBranchCompiles(branches[i]) then Some(LowerTypeBranches(branches)) else None
    decreases branches, 1
  {
    if branches == [] {
      return Some([]);
    }
    var first := CompileTypeBranch(branches[0]);
    var rest := CompileTypeBranches(branches[1..]);
    assert forall i :: 0 < i < |branches| ==> branches[i] == branches[1..][i - 1];
    r := if first.Some? && rest.Some? then Some([first.value] + rest.value) else None;
  }

  method CompileTypeBranch(branch: Ast.TypeBranch) returns (r: Option<Branch>)
    ensures r == if TypeBranchCompiles(branch) then Some(LowerTypeBranch(branch)) else None
    decreases branch, 1
  {
    match branch
    case TypeBranch(type_, block) =>
      var b := CompileBlock(block);
      r := if b.Some? then Some(Branch(Some(type_), b.value)) else None;
  }

  method CompileExpressions(es: seq<Ast.Expression>) returns (r: Option<seq<Expression>>)
    ensures r == if forall i :: 0 <= i < |es| ==> Compiles(es[i]) then Some(LowerAll(es)) else None
    decreases es, 1
  {
    if es == [] {
      return Some([]);
    }
    var first := CompileExpression(es[0]);
    var rest := CompileExpressions(es[1..]);
    assert forall i :: 0 < i < |es| ==> es[i] == es[1..][i - 1];
    r := if first.Some? && rest.Some? then Some([first.value] + rest.value) else None;
  }

  method CompileFields(fields: seq<Ast.Field>) returns (r: Option<seq<Field>>)
    ensures r == if forall i :: 0 <= i < |fields| ==> FieldCompiles(fields[i]) then Some(LowerFields(fields)) else None
    decreases fields, 1
  {
    if fields == [] {
      return Some([]);
    }
    var first := CompileField(fields[0]);
    var rest := CompileFields(fields[1..]);
    assert forall i :: 0 < i < |fields| ==> fields[i] == fields[1..][i - 1];
    r := if first.Some? && rest.Some? then Some([first.value] + rest.value) else None;
  }

  method CompileField(field: Ast.Field) returns (r: Option<Field>)
    ensures r == if FieldCompiles(field) then Some(LowerField(field)) else None
    decreases field, 1
  {
    match field
    case Field(name, expression) =>
      var e := CompileExpression(expression);
      r := if e.Some? then Some(Field(name, e.value)) else None;
  }
}
