/**
 The formatter: it walks a module, drains comments as it reaches their lines, and builds a document.

 Every method promises that the comments it drains are the ones in its document, in order, and
 that the document stands for the code of its syntax.
 */
module Formatter {
  import opened Sums
  import opened Operators
  import opened Documents
  import opened Comments
  import opened Modules
  import opened Building

  // ----- Types -----

  function CompileType(t: Type): (d: Document)
    ensures Quiet(d) && TextOf(d) == TypeText(t)
    decreases t, 1
  {
    match t
    case FunctionType(arguments, result, _) =>
      Cat4(Code("\\("), CompileTypes(arguments), Code(") "), CompileType(result))
    case ListType(element, _) => Cat3(Code("["), CompileType(element), Code("]"))
    case MapType(key, value, _) => Cat5(Code("{"), CompileType(key), Code(": "), CompileType(value), Code("}"))
    case NamedType(name, _) => Code(name)
    case UnionType(lhs, rhs, _) =>
      var types := CollectUnionTypes(t);
      var separator := Cat2(Code(" |"), Line);
      assert TextOf(separator) == " |" + "" == " |";
      var union := Cat3(CompileMember(lhs, false), separator, CompileMember(rhs, true));
      Break(!(types[0].line == types[1].line && !IsBroken(union)), union)
  }

  function CompileMember(t: Type, last: bool): (d: Document)
    ensures Quiet(d) && TextOf(d) == UnionText(t, last)
    decreases t, 2
  {
    if t.UnionType? then
      var separator := Cat2(Code(" |"), Line);
      assert TextOf(separator) == " |" + "" == " |";
      Cat3(CompileMember(t.lhs, false), separator, CompileMember(t.rhs, last))
    else if !last && t.FunctionType? then Cat3(Code("("), CompileType(t), Code(")"))
    else CompileType(t)
  }

  function CompileTypes(ts: seq<Type>): (d: Document)
    ensures Quiet(d) && TextOf(d) == TypesText(ts)
    decreases ts, 0
  {
    if ts == [] then Empty()
    else if |ts| == 1 then CompileType(ts[0])
    else Cat3(CompileType(ts[0]), Code(", "), CompileTypes(ts[1..]))
  }

  // ----- Layout of lists -----

  function Separator(): (d: Document)
    ensures Quiet(d) && TextOf(d) == ","
  {
    Units(",");
    Cat2(Code(","), Line)
  }

  function Literal(text: string): (d: Document)
    ensures d == Code(text) && Quiet(d) && TextOf(d) == text
  {
    Code(text)
  }

  /** Elements on one line, or on lines of their own and followed by a separator. */
  function Wrapped(flat: bool, elements: Document): (d: Document)
    ensures TextOf(d) == TextOf(elements) && NotesOf(d) == NotesOf(elements) && (WellNoted(elements) ==> WellNoted(d))
  {
    if flat then Break(false, elements)
    else
      Units(TextOf(elements));
      Units(NotesOf(elements));
      Break(true, Cat2(Indent(Cat2(Line, elements)), Cat2(Trailing, Line)))
  }

  /** Elements that start with line breaks themselves. */
  function WrappedLines(flat: bool, elements: Document, end: Document): (d: Document)
    requires end == Trailing || end == Empty()
    ensures TextOf(d) == TextOf(elements) && NotesOf(d) == NotesOf(elements) && (WellNoted(elements) ==> WellNoted(d))
  {
    if flat then Break(false, elements)
    else
      Units(TextOf(elements));
      Units(NotesOf(elements));
      Break(true, Cat3(Indent(elements), end, Line))
  }

  lemma EmitsSame(r0: seq<Comment>, a: Document, r1: seq<Comment>, d: Document)
    requires Emits(r0, a, r1) && NotesOf(d) == NotesOf(a) && WellNoted(d)
    ensures Emits(r0, d, r1)
  {
  }

  lemma WrappedEmits(r0: seq<Comment>, elements: Document, r1: seq<Comment>, flat: bool)
    requires Emits(r0, elements, r1)
    ensures Emits(r0, Wrapped(flat, elements), r1)
  {
    EmitsSame(r0, elements, r1, Wrapped(flat, elements));
  }

  lemma WrappedLinesEmits(r0: seq<Comment>, elements: Document, r1: seq<Comment>, flat: bool, end: Document)
    requires Emits(r0, elements, r1) && (end == Trailing || end == Empty())
    ensures Emits(r0, WrappedLines(flat, elements, end), r1)
  {
    EmitsSame(r0, elements, r1, WrappedLines(flat, elements, end));
  }

  /** A document between the comments before and after it. */
  lemma Commented(r0: seq<Comment>, before: Document, r1: seq<Comment>, d: Document, r2: seq<Comment>, after: Document,
                  r3: seq<Comment>)
    requires Emits(r0, before, r1) && Emits(r1, d, r2) && Emits(r2, after, r3)
    requires TextOf(before) == "" && TextOf(after) == ""
    ensures Emits(r0, Cat3(before, d, after), r3) && TextOf(Cat3(before, d, after)) == TextOf(d)
  {
    EmitsCat3(r0, before, r1, d, r2, after, r3);
    Units(TextOf(d));
  }

  lemma NothingEmits(r: seq<Comment>)
    ensures Emits(r, Sequence([]), r) && TextOfAll([]) == ""
  {
  }

  lemma SequenceText(ds: seq<Document>)
    ensures TextOf(Sequence(ds)) == TextOfAll(ds)
  {
  }

  lemma Flattened(r0: seq<Comment>, d: Document, r1: seq<Comment>, condition: bool)
    requires Emits(r0, d, r1)
    ensures Emits(r0, FlattenIf(condition, d), r1) && TextOf(FlattenIf(condition, d)) == TextOf(d)
  {
    hide IsBroken;
    EmitsSame(r0, d, r1, FlattenIf(condition, d));
  }

  lemma Spaced(r0: seq<Comment>, a: Document, r1: seq<Comment>, b: Document, r2: seq<Comment>)
    requires Emits(r0, a, r1) && Emits(r1, b, r2)
    ensures Emits(r0, Cat3(a, Code(" "), b), r2) && TextOf(Cat3(a, Code(" "), b)) == TextOf(a) + " " + TextOf(b)
  {
    EmitsCat3(r0, a, r1, Code(" "), r1, b, r2);
  }

  /** A document between brackets, after quiet code. */
  lemma Bracketed(r0: seq<Comment>, open: string, quiet: Document, d: Document, r1: seq<Comment>, close: string)
    requires Emits(r0, d, r1) && Quiet(quiet)
    ensures var all := Cat4(Code(open), quiet, d, Code(close));
            Emits(r0, all, r1) && TextOf(all) == open + TextOf(quiet) + TextOf(d) + close
  {
    EmitsCat4(r0, Code(open), r0, quiet, r0, d, r1, Code(close), r1);
  }

  // ----- Expressions -----

  // The documents of variables, and of calls of variables with variables, can be told in advance.

  /** A variable between the comments before and on its line, and the comments after it. */
  function NameDocument(comments: seq<Comment>, e: Expression): Document
    requires e.Variable?
  {
    Cat3(BlockComment(comments, e.line), Code(e.name), SuffixComment(comments[Before(comments, e.line)..], e.line))
  }

  function NameRest(comments: seq<Comment>, e: Expression): seq<Comment>
    requires e.Variable?
  {
    var rest := comments[Before(comments, e.line)..];
    rest[Before(rest, e.line + 1)..]
  }

  predicate AreVariables(es: seq<Expression>) {
    forall i :: 0 <= i < |es| ==> es[i].Variable?
  }

  function NamesRest(comments: seq<Comment>, es: seq<Expression>): seq<Comment>
    requires AreVariables(es)
  {
    if es == [] then comments else NameRest(NamesRest(comments, es[..|es| - 1]), es[|es| - 1])
  }

  function NameDocuments(comments: seq<Comment>, es: seq<Expression>): seq<Document>
    requires AreVariables(es)
  {
    if es == [] then []
    else
      var init := es[..|es| - 1];
      Added(NameDocuments(comments, init), Separator(), NameDocument(NamesRest(comments, init), es[|es| - 1]))
  }

  predicate IsSimpleCall(e: Expression) {
    e.Call? && e.callee.Variable? && AreVariables(e.arguments)
  }

  function SimpleCallDocument(comments: seq<Comment>, e: Expression): Document
    requires IsSimpleCall(e)
  {
    var arguments := Sequence(NameDocuments(comments, e.arguments));
    var flat := e.arguments == [] || (LineOf(e.callee) == LineOf(e.arguments[0]) && !IsBroken(arguments));
    Cat4(Code(e.callee.name), Code("("), Wrapped(flat, arguments), Code(")"))
  }

  ghost predicate IsExpected(e: Expression, before: seq<Comment>, d: Document, after: seq<Comment>) {
    e.Variable? ==> d == Code(e.name) && after == before
  }

  ghost predicate IsExpectedLine(e: Expression, before: seq<Comment>, d: Document, after: seq<Comment>) {
    e.Variable? ==> d == NameDocument(before, e) && after == NameRest(before, e)
  }

  ghost predicate IsExpectedCall(e: Expression, before: seq<Comment>, d: Document) {
    IsSimpleCall(e) ==> d == SimpleCallDocument(before, e)
  }

  lemma ExpectsVariables(e: Expression, comments: seq<Comment>)
    ensures e.Variable? ==> IsExpected(e, comments, Code(e.name), comments)
  {
  }

  lemma ExpectsOthers(e: Expression, before: seq<Comment>, d: Document, after: seq<Comment>)
    requires !e.Variable?
    ensures IsExpected(e, before, d, after)
  {
  }

  method CompileExpression(context: Context, e: Expression) returns (d: Document)
    modifies context
    ensures Emits(old(context.comments), d, context.comments) && TextOf(d) == ExpressionText(e)
    ensures IsExpected(e, old(context.comments), d, context.comments)
    decreases e, 2
  {
    hide NotesOf, WellNoted, IsExpected, IsExpectedCall;
    ExpectsVariables(e, context.comments);
    match e {
      case BinaryOperation(_, _, _, _) => d := CompileBinaryOperation(context, e);
      case Call(_, _, _) => d := CompileCall(context, e);
      case If(_, _, _) => d := CompileIf(context, e);
      case IfList(_, _, _, _, _, _) => d := CompileIfList(context, e);
      case IfMap(_, _, _, _, _, _) => d := CompileIfMap(context, e);
      case IfType(_, _, _, _, _) => d := CompileIfType(context, e);
      case LambdaExpression(lambda) => d := CompileLambda(context, lambda);
      case List(_, _, _) => d := CompileList(context, e);
      case ListComprehension(_, _, _, _, _) => d := CompileListComprehension(context, e);
      case Map(_, _, _, _) => d := CompileMap(context, e);
      case MapIterationComprehension(_, _, _, _, _, _) => d := CompileMapIterationComprehension(context, e);
      case Number(text, _) =>
        d := Code(text);
        CodeEmits(text, context.comments);
      case Record(_, _, _, _) => d := CompileRecord(context, e);
      case RecordDeconstruction(record, fieldName, _) =>
        var r := CompileExpression(context, record);
        EmitsTail(old(context.comments), r, context.comments, ".", fieldName);
        d := Cat3(r, Code("."), Code(fieldName));
      case String(value, _) =>
        d := Cat3(Code("\""), Code(value), Code("\""));
        CodesEmit("\"", value, "\"", context.comments);
      case UnaryOperation(_, _, _) => d := CompileUnaryOperation(context, e);
      case Variable(name, _) =>
        d := Code(name);
        CodeEmits(name, context.comments);
        return;
    }
    ExpectsOthers(e, old(context.comments), d, context.comments);
  }

  lemma CodeEmits(text: string, r: seq<Comment>)
    ensures Emits(r, Code(text), r)
  {
  }

  lemma CodeText(text: string)
    ensures TextOf(Code(text)) == text
  {
  }

  lemma CodesEmit(a: string, b: string, c: string, r: seq<Comment>)
    ensures Emits(r, Cat3(Code(a), Code(b), Code(c)), r) && TextOf(Cat3(Code(a), Code(b), Code(c))) == a + b + c
  {
  }

  lemma EmitsTail(r0: seq<Comment>, d: Document, r1: seq<Comment>, a: string, b: string)
    requires Emits(r0, d, r1)
    ensures Emits(r0, Cat3(d, Code(a), Code(b)), r1)
  {
    EmitsCat3(r0, d, r1, Code(a), r1, Code(b), r1);
  }

  lemma Parenthesizes(r0: seq<Comment>, d: Document, r1: seq<Comment>)
    requires Emits(r0, d, r1)
    ensures Emits(r0, Cat3(Code("("), d, Code(")")), r1)
    ensures TextOf(Cat3(Code("("), d, Code(")"))) == "(" + TextOf(d) + ")"
  {
    EmitsCat3(r0, Code("("), r0, d, r1, Code(")"), r1);
  }

  lemma ExpectsLine(e: Expression, r0: seq<Comment>, r1: seq<Comment>, r2: seq<Comment>, r3: seq<Comment>,
                    before: Document, d: Document, after: Document)
    requires before == BlockComment(r0, LineOf(e)) && r1 == r0[Before(r0, LineOf(e))..]
    requires IsExpected(e, r1, d, r2)
    requires after == SuffixComment(r2, LineOf(e)) && r3 == r2[Before(r2, LineOf(e) + 1)..]
    ensures IsExpectedLine(e, r0, Cat3(before, d, after), r3)
  {
    hide BlockComment, SuffixComment, Before;
  }

  /** An expression between the comments before and on its line. */
  method CompileCommented(context: Context, e: Expression) returns (d: Document)
    modifies context
    ensures Emits(old(context.comments), d, context.comments) && TextOf(d) == ExpressionText(e)
    ensures IsExpectedLine(e, old(context.comments), d, context.comments)
    decreases e, 3
  {
    hide Emits, NotesOf, WellNoted, TextOf, ExpressionText, BlockComment, SuffixComment, Before, IsExpected, IsExpectedLine;
    ghost var r0 := context.comments;
    var before := CompileBlockComment(context, LineOf(e));
    ghost var r1 := context.comments;
    var expression := CompileExpression(context, e);
    ghost var r2 := context.comments;
    var after := CompileSuffixComment(context, LineOf(e));
    Commented(r0, before, r1, expression, r2, after, context.comments);
    ExpectsLine(e, r0, r1, r2, context.comments, before, expression, after);
    d := Cat3(before, expression, after);
  }

  method CompileOperand(context: Context, operand: Expression, parent: Operator) returns (d: Document)
    modifies context
    ensures Emits(old(context.comments), d, context.comments)
    ensures TextOf(d) == Parenthesized(NeedsParens(operand, parent), ExpressionText(operand))
    decreases operand, 3
  {
    hide IsExpected, NotesOf, WellNoted, ExpressionText;
    d := CompileExpression(context, operand);
    if NeedsParens(operand, parent) {
      Parenthesizes(old(context.comments), d, context.comments);
      d := Cat3(Code("("), d, Code(")"));
    }
  }

  method CompileBinaryOperation(context: Context, e: Expression) returns (d: Document)
    requires e.BinaryOperation?
    modifies context
    ensures Emits(old(context.comments), d, context.comments) && TextOf(d) == ExpressionText(e)
    decreases e, 1
  {
    var lhs := CompileOperand(context, e.lhs, e.operator);
    ghost var r1 := context.comments;
    var rhs := CompileOperand(context, e.rhs, e.operator);
    var operator := Code(OperatorText(e.operator));
    var tail := Cat4(Line, operator, Code(" "), rhs);
    EmitsCat4(r1, Line, r1, operator, r1, Code(" "), r1, rhs, context.comments);
    EmitsSame(r1, tail, context.comments, Indent(tail));
    var all := Cat2(lhs, Indent(tail));
    EmitsCat2(old(context.comments), lhs, r1, Indent(tail), context.comments);
    Units(OperatorText(e.operator));
    d := FlattenIf(LineOf(e.lhs) == LineOf(e.rhs), all);
    EmitsSame(old(context.comments), all, context.comments, d);
  }

  method CompileUnaryOperation(context: Context, e: Expression) returns (d: Document)
    requires e.UnaryOperation?
    modifies context
    ensures Emits(old(context.comments), d, context.comments) && TextOf(d) == ExpressionText(e)
    decreases e, 1
  {
    hide IsExpected;
    var operand := CompileExpression(context, e.operand);
    ghost var r1 := context.comments;
    if e.operand.BinaryOperation? {
      Parenthesizes(old(context.comments), operand, r1);
      operand := Cat3(Code("("), operand, Code(")"));
    }
    match e.unary {
      case Not =>
        EmitsCat2(old(context.comments), Code("!"), old(context.comments), operand, r1);
        d := Cat2(Code("!"), operand);
      case Try =>
        EmitsCat2(old(context.comments), operand, r1, Code("?"), r1);
        d := Cat2(operand, Code("?"));
    }
  }

  lemma Applied(r0: seq<Comment>, callee: Document, r1: seq<Comment>, arguments: Document, r2: seq<Comment>)
    requires Emits(r0, callee, r1) && Emits(r1, arguments, r2)
    ensures var d := Cat4(callee, Code("("), arguments, Code(")"));
            Emits(r0, d, r2) && TextOf(d) == TextOf(callee) + "(" + TextOf(arguments) + ")"
  {
    EmitsCat4(r0, callee, r1, Code("("), r1, arguments, r2, Code(")"), r2);
  }

  method CompileCall(context: Context, e: Expression) returns (d: Document)
    requires e.Call?
    modifies context
    ensures Emits(old(context.comments), d, context.comments) && TextOf(d) == ExpressionText(e)
    ensures IsExpectedCall(e, old(context.comments), d)
    decreases e, 1
  {
    var callee := CompileExpression(context, e.callee);
    ghost var r1 := context.comments;
    var arguments := CompileArguments(context, e.arguments);
    var flat := e.arguments == [] || (LineOf(e.callee) == LineOf(e.arguments[0]) && !IsBroken(arguments));
    assert ExpressionText(e) == ExpressionText(e.callee) + "(" + ArgumentsText(e.arguments) + ")";
    hide Emits, NotesOf, WellNoted, TextOf, ExpressionText, ArgumentsText, Wrapped, IsBroken;
    var wrapped := Wrapped(flat, arguments);
    WrappedEmits(r1, arguments, context.comments, flat);
    Applied(old(context.comments), callee, r1, wrapped, context.comments);
    d := Cat4(callee, Code("("), wrapped, Code(")"));
  }

  lemma ArgumentsTextNone()
    ensures ArgumentsText([]) == ""
  {
  }

  lemma ArgumentsTextNext(es: seq<Expression>, i: nat)
    requires i < |es|
    ensures ArgumentsText(es[..i + 1]) == Separated(ArgumentsText(es[..i]), i == 0, ",", ExpressionText(es[i]))
  {
    hide Separated, ExpressionText;
    var init := es[..i + 1];
    assert init[..i] == es[..i] && init[i] == es[i];
  }

  method CompileArguments(context: Context, arguments: seq<Expression>) returns (d: Document)
    modifies context
    ensures Emits(old(context.comments), d, context.comments) && TextOf(d) == ArgumentsText(arguments)
    ensures AreVariables(arguments) ==> d == Sequence(NameDocuments(old(context.comments), arguments))
    decreases arguments, 0
  {
    hide NameDocument, NameRest, Emits, NotesOf, WellNoted, TextOf, TextOfAll, Separated, Separator, Literal, Added, ArgumentsText;
    var ds: seq<Document> := [];
    NothingEmits(context.comments);
    ArgumentsTextNone();
    for i := 0 to |arguments|
      invariant Emits(old(context.comments), Sequence(ds), context.comments)
      invariant TextOfAll(ds) == ArgumentsText(arguments[..i]) && (ds == [] <==> i == 0)
      invariant AreVariables(arguments) ==>
                  && ds == NameDocuments(old(context.comments), arguments[..i])
                  && context.comments == NamesRest(old(context.comments), arguments[..i])
    {
      ghost var r0 := context.comments;
      var element := CompileCommented(context, arguments[i]);
      EmitsAdded(old(context.comments), ds, r0, Separator(), element, context.comments);
      ds := Added(ds, Separator(), element);
      ArgumentsTextNext(arguments, i);
      assert arguments[..i + 1][..i] == arguments[..i] && arguments[..i + 1][i] == arguments[i];
    }
    assert arguments[..|arguments|] == arguments;
    SequenceText(ds);
    d := Sequence(ds);
  }

  method CompileIf(context: Context, e: Expression) returns (d: Document)
    requires e.If?
    modifies context
    ensures Emits(old(context.comments), d, context.comments) && TextOf(d) == ExpressionText(e)
    decreases e, 1
  {
    var branches := CompileBranches(context, e.branches);
    ghost var r1 := context.comments;
    var otherwise := CompileBlock(context, e.otherwise);
    EmitsCat2(old(context.comments), branches, r1, otherwise, context.comments);
    var all := Cat2(branches, otherwise);
    d := FlattenIf(|e.branches| == 1 && e.line == LineOf(e.branches[0].block.expression), all);
    FlattenedEmits(old(context.comments), all, context.comments, d);
  }

  method CompileBranches(context: Context, branches: seq<IfBranch>) returns (d: Document)
    modifies context
    ensures Emits(old(context.comments), d, context.comments) && TextOf(d) == BranchesText(branches)
    decreases branches, 0
  {
    hide Emits, NotesOf, WellNoted, TextOf, TextOfAll, Separated, Separator, Literal, Added, BranchText;
    var ds: seq<Document> := [];
    NothingEmits(context.comments);
    for i := 0 to |branches|
      invariant Emits(old(context.comments), Sequence(ds), context.comments)
      invariant TextOfAll(ds) == BranchesText(branches[..i])
    {
      ghost var r0 := context.comments;
      var element := CompileBranch(context, branches[i]);
      EmitsSnoc(old(context.comments), ds, r0, element, context.comments);
      ds := ds + [element];
      assert branches[..i + 1][..i] == branches[..i];
    }
    assert branches[..|branches|] == branches;
    SequenceText(ds);
    d := Sequence(ds);
  }

  method CompileBranch(context: Context, branch: IfBranch) returns (d: Document)
    modifies context
    ensures Emits(old(context.comments), d, context.comments) && TextOf(d) == BranchText(branch)
    decreases branch, 0
  {
    hide IsExpected, Emits, NotesOf, WellNoted, TextOf, ExpressionText, BlockText;
    match branch
    case IfBranch(condition, block) =>
      var c := CompileExpression(context, condition);
      ghost var r1 := context.comments;
      var b := CompileBlock(context, block);
      ghost var r0, r2 := old(context.comments), context.comments;
      CodeEmits("if ", r0);
      CodeEmits(" ", r1);
      CodeEmits(" else ", r2);
      CodeText("if ");
      CodeText(" ");
      CodeText(" else ");
      EmitsCat5(r0, Code("if "), r0, c, r1, Code(" "), r1, b, r2, Code(" else "), r2);
      d := Cat5(Code("if "), c, Code(" "), b, Code(" else "));
  }

  function ListHead(first: string, rest: string): (d: Document)
    ensures Quiet(d) && TextOf(d) == "if [" + first + ", ..." + rest + "] = "
  {
    Cat5(Code("if ["), Code(first), Code(", ..."), Code(rest), Code("] = "))
  }

  function BindingHead(name: string): (d: Document)
    ensures Quiet(d) && TextOf(d) == "if " + name + " = "
  {
    Cat3(Code("if "), Code(name), Code(" = "))
  }

  method CompileIfList(context: Context, e: Expression) returns (d: Document)
    requires e.IfList?
    modifies context
    ensures Emits(old(context.comments), d, context.comments) && TextOf(d) == ExpressionText(e)
    decreases e, 1
  {
    hide IsExpected, Emits, NotesOf, WellNoted, TextOf, Quiet, BlockText;
    assert ExpressionText(e) ==
           ("if [" + e.firstName + ", ..." + e.restName + "] = ") + ExpressionText(e.list) + " "
           + BlockText(e.consequence) + " else " + BlockText(e.otherwise);
    hide ExpressionText;
    var head := ListHead(e.firstName, e.restName);
    var list := CompileExpression(context, e.list);
    ghost var r1 := context.comments;
    var consequence := CompileBlock(context, e.consequence);
    ghost var r2 := context.comments;
    var otherwise := CompileBlock(context, e.otherwise);
    ghost var r0, r3 := old(context.comments), context.comments;
    QuietEmits(head, r0);
    CodeEmits(" ", r1);
    CodeEmits(" else ", r2);
    CodeText(" ");
    CodeText(" else ");
    EmitsCat6(r0, head, r0, list, r1, Code(" "), r1, consequence, r2, Code(" else "), r2, otherwise, r3);
    d := Cat6(head, list, Code(" "), consequence, Code(" else "), otherwise);
  }

  method CompileIfMap(context: Context, e: Expression) returns (d: Document)
    requires e.IfMap?
    modifies context
    ensures Emits(old(context.comments), d, context.comments) && TextOf(d) == ExpressionText(e)
    decreases e, 1
  {
    hide IsExpected, Emits, NotesOf, WellNoted, TextOf, Quiet, BlockText;
    assert ExpressionText(e) ==
           ("if " + e.name + " = ") + ExpressionText(e.map_) + "[" + ExpressionText(e.key) + "] "
           + (BlockText(e.consequence) + " else " + BlockText(e.otherwise));
    hide ExpressionText;
    var head := BindingHead(e.name);
    var map_ := CompileExpression(context, e.map_);
    ghost var r1 := context.comments;
    var key := CompileExpression(context, e.key);
    ghost var r2 := context.comments;
    var consequence := CompileBlock(context, e.consequence);
    ghost var r3 := context.comments;
    var otherwise := CompileBlock(context, e.otherwise);
    ghost var r0, r4 := old(context.comments), context.comments;
    CodeEmits(" else ", r3);
    CodeText(" else ");
    var blocks := Cat3(consequence, Code(" else "), otherwise);
    EmitsCat3(r2, consequence, r3, Code(" else "), r3, otherwise, r4);
    CodeEmits("[", r1);
    CodeEmits("] ", r2);
    CodeText("[");
    CodeText("] ");
    QuietEmits(head, r0);
    EmitsCat6(r0, head, r0, map_, r1, Code("["), r1, key, r2, Code("] "), r2, blocks, r4);
    d := Cat6(head, map_, Code("["), key, Code("] "), blocks);
  }

  method CompileIfType(context: Context, e: Expression) returns (d: Document)
    requires e.IfType?
    modifies context
    ensures Emits(old(context.comments), d, context.comments) && TextOf(d) == ExpressionText(e)
    decreases e, 1
  {
    hide IsExpected, Emits, NotesOf, WellNoted, TextOf, Quiet, TypeBranchesText, AlternativeText;
    assert ExpressionText(e) ==
           ("if " + e.name + " = ") + ExpressionText(e.argument) + " as "
           + TypeBranchesText(e.typeBranches) + AlternativeText(e.alternative);
    hide ExpressionText;
    var head := BindingHead(e.name);
    var argument := CompileExpression(context, e.argument);
    ghost var r1 := context.comments;
    var branches := CompileTypeBranches(context, e.typeBranches);
    ghost var r2 := context.comments;
    var alternative := CompileAlternative(context, e.alternative);
    ghost var r0, r3 := old(context.comments), context.comments;
    QuietEmits(head, r0);
    CodeEmits(" as ", r1);
    CodeText(" as ");
    EmitsCat5(r0, head, r0, argument, r1, Code(" as "), r1, branches, r2, alternative, r3);
    var all := Cat5(head, argument, Code(" as "), branches, alternative);
    d := FlattenIf(
      |e.typeBranches| + (if e.alternative.Some? then 1 else 0) <= 2
      && |e.typeBranches| > 0 && e.line == LineOf(e.typeBranches[0].block.expression), all);
    FlattenedEmits(r0, all, r3, d);
  }

  lemma FlattenedEmits(r0: seq<Comment>, all: Document, r1: seq<Comment>, d: Document)
    requires Emits(r0, all, r1) && d.Break? && d.document == all
    ensures Emits(r0, d, r1) && TextOf(d) == TextOf(all)
  {
    EmitsSame(r0, all, r1, d);
  }

  lemma TypeBranchesTextNone()
    ensures TypeBranchesText([]) == ""
  {
  }

  lemma TypeBranchesTextNext(es: seq<IfTypeBranch>, i: nat)
    requires i < |es|
    ensures TypeBranchesText(es[..i + 1]) == Separated(TypeBranchesText(es[..i]), i == 0, " else if ", TypeBranchText(es[i]))
  {
    hide Separated, TypeBranchText;
    var init := es[..i + 1];
    assert init[..i] == es[..i] && init[i] == es[i];
  }

  method CompileTypeBranches(context: Context, branches: seq<IfTypeBranch>) returns (d: Document)
    modifies context
    ensures Emits(old(context.comments), d, context.comments) && TextOf(d) == TypeBranchesText(branches)
    decreases branches, 0
  {
    hide Emits, NotesOf, WellNoted, TextOf, TextOfAll, Separated, Separator, Literal, Added, TypeBranchesText;
    var ds: seq<Document> := [];
    NothingEmits(context.comments);
    TypeBranchesTextNone();
    for i := 0 to |branches|
      invariant Emits(old(context.comments), Sequence(ds), context.comments)
      invariant TextOfAll(ds) == TypeBranchesText(branches[..i]) && (ds == [] <==> i == 0)
    {
      ghost var r0 := context.comments;
      var element := CompileTypeBranch(context, branches[i]);
      EmitsAdded(old(context.comments), ds, r0, Literal(" else if "), element, context.comments);
      ds := Added(ds, Literal(" else if "), element);
      TypeBranchesTextNext(branches, i);
    }
    assert branches[..|branches|] == branches;
    SequenceText(ds);
    d := Sequence(ds);
  }

  method CompileTypeBranch(context: Context, branch: IfTypeBranch) returns (d: Document)
    modifies context
    ensures Emits(old(context.comments), d, context.comments) && TextOf(d) == TypeBranchText(branch)
    decreases branch, 0
  {
    match branch
    case IfTypeBranch(type_, block) =>
      var b := CompileBlock(context, block);
      ghost var r0 := old(context.comments);
      EmitsCat3(r0, CompileType(type_), r0, Code(" "), r0, b, context.comments);
      d := Cat3(CompileType(type_), Code(" "), b);
  }

  method CompileAlternative(context: Context, alternative: Option<Block>) returns (d: Document)
    modifies context
    ensures Emits(old(context.comments), d, context.comments) && TextOf(d) == AlternativeText(alternative)
    decreases alternative, 0
  {
    match alternative
    case None =>
      d := Empty();
    case Some(block) =>
      var b := CompileBlock(context, block);
      ghost var r0 := old(context.comments);
      EmitsCat2(r0, Code(" else "), r0, b, context.comments);
      d := Cat2(Code(" else "), b);
  }

  method CompileList(context: Context, e: Expression) returns (d: Document)
    requires e.List?
    modifies context
    ensures Emits(old(context.comments), d, context.comments) && TextOf(d) == ExpressionText(e)
    decreases e, 1
  {
    var elements := CompileElements(context, e.elements);
    var flat := e.elements == [] || (e.line == LineOf(e.elements[0].expression) && !IsBroken(elements));
    ghost var r0, r1 := old(context.comments), context.comments;
    assert ExpressionText(e) == "[" + TypeText(e.elementType) + ListText(e.elements) + "]";
    hide Emits, NotesOf, WellNoted, TextOf, ExpressionText, ListText, TypeText, CompileType, WrappedLines, IsBroken;
    var wrapped := WrappedLines(flat, elements, Trailing);
    WrappedLinesEmits(r0, elements, r1, flat, Trailing);
    Bracketed(r0, "[", CompileType(e.elementType), wrapped, r1, "]");
    d := Cat4(Code("["), CompileType(e.elementType), wrapped, Code("]"));
  }

  lemma OnItsLine(r0: seq<Comment>, d: Document, r1: seq<Comment>)
    requires Emits(r0, d, r1)
    ensures Emits(r0, Cat2(Line, d), r1) && TextOf(Cat2(Line, d)) == TextOf(d)
  {
    EmitsCat2(r0, Line, r0, d, r1);
    Units(TextOf(d));
  }

  lemma ListTextNone()
    ensures ListText([]) == ""
  {
  }

  lemma ListTextNext(es: seq<ListElement>, i: nat)
    requires i < |es|
    ensures ListText(es[..i + 1]) == Separated(ListText(es[..i]), i == 0, ",", ElementText(es[i]))
  {
    hide Separated, ElementText;
    var init := es[..i + 1];
    assert init[..i] == es[..i] && init[i] == es[i];
  }

  method CompileElements(context: Context, elements: seq<ListElement>) returns (d: Document)
    modifies context
    ensures Emits(old(context.comments), d, context.comments) && TextOf(d) == ListText(elements)
    decreases elements, 0
  {
    hide Emits, NotesOf, WellNoted, TextOf, TextOfAll, Separated, Separator, Literal, Added, ListText;
    var ds: seq<Document> := [];
    NothingEmits(context.comments);
    ListTextNone();
    for i := 0 to |elements|
      invariant Emits(old(context.comments), Sequence(ds), context.comments)
      invariant TextOfAll(ds) == ListText(elements[..i]) && (ds == [] <==> i == 0)
    {
      ghost var r0 := context.comments;
      var element := CompileElementLine(context, elements[i]);
      EmitsAdded(old(context.comments), ds, r0, Literal(","), element, context.comments);
      ds := Added(ds, Literal(","), element);
      ListTextNext(elements, i);
    }
    assert elements[..|elements|] == elements;
    SequenceText(ds);
    d := Sequence(ds);
  }

  /** An element on its line, with its comments. */
  method CompileElementLine(context: Context, element: ListElement) returns (d: Document)
    modifies context
    ensures Emits(old(context.comments), d, context.comments) && TextOf(d) == ElementText(element)
    decreases element, 1
  {
    hide BlockComment, SuffixComment, Before, Emits, NotesOf, WellNoted, TextOf, ElementText;
    ghost var r0 := context.comments;
    var before := CompileBlockComment(context, LineOf(element.expression));
    ghost var r1 := context.comments;
    var e := CompileElement(context, element);
    ghost var r2 := context.comments;
    var after := CompileSuffixComment(context, LineOf(element.expression));
    Commented(r0, before, r1, e, r2, after, context.comments);
    OnItsLine(r0, Cat3(before, e, after), context.comments);
    d := Cat2(Line, Cat3(before, e, after));
  }

  method CompileElement(context: Context, element: ListElement) returns (d: Document)
    modifies context
    ensures Emits(old(context.comments), d, context.comments) && TextOf(d) == ElementText(element)
    decreases element, 0
  {
    hide IsExpected;
    match element
    case Multiple(expression) => d := CompileSpread(context, expression);
    case Single(expression) => d := CompileExpression(context, expression);
  }

  method CompileSpread(context: Context, e: Expression) returns (d: Document)
    modifies context
    ensures Emits(old(context.comments), d, context.comments) && TextOf(d) == "..." + ExpressionText(e)
    decreases e, 3
  {
    hide IsExpected;
    var expression := CompileExpression(context, e);
    ghost var r0 := old(context.comments);
    EmitsCat2(r0, Code("..."), r0, expression, context.comments);
    d := Cat2(Code("..."), expression);
  }

  method CompileMap(context: Context, e: Expression) returns (d: Document)
    requires e.Map?
    modifies context
    ensures Emits(old(context.comments), d, context.comments) && TextOf(d) == ExpressionText(e)
    decreases e, 1
  {
    var type_ := Cat3(CompileType(e.keyType), Code(": "), CompileType(e.valueType));
    assert Quiet(type_);
    var elements := CompileMapElements(context, e.mapElements);
    var flat := e.mapElements == [] || (e.line == MapElementLine(e.mapElements[0]) && !IsBroken(elements));
    ghost var r0, r1 := old(context.comments), context.comments;
    assert ExpressionText(e) == "{" + (TypeText(e.keyType) + ": " + TypeText(e.valueType)) + MapText(e.mapElements) + "}";
    hide Emits, NotesOf, WellNoted, TextOf, ExpressionText, MapText, TypeText, CompileType, WrappedLines, IsBroken;
    var wrapped := WrappedLines(flat, elements, Trailing);
    WrappedLinesEmits(r0, elements, r1, flat, Trailing);
    Bracketed(r0, "{", type_, wrapped, r1, "}");
    d := Cat4(Code("{"), type_, wrapped, Code("}"));
  }

  lemma MapTextNone()
    ensures MapText([]) == ""
  {
  }

  lemma MapTextNext(es: seq<MapElement>, i: nat)
    requires i < |es|
    ensures MapText(es[..i + 1]) == Separated(MapText(es[..i]), i == 0, ",", MapElementText(es[i]))
  {
    hide Separated, MapElementText;
    var init := es[..i + 1];
    assert init[..i] == es[..i] && init[i] == es[i];
  }

  method CompileMapElements(context: Context, elements: seq<MapElement>) returns (d: Document)
    modifies context
    ensures Emits(old(context.comments), d, context.comments) && TextOf(d) == MapText(elements)
    decreases elements, 0
  {
    hide Emits, NotesOf, WellNoted, TextOf, TextOfAll, Separated, Separator, Literal, Added, MapText;
    var ds: seq<Document> := [];
    NothingEmits(context.comments);
    MapTextNone();
    for i := 0 to |elements|
      invariant Emits(old(context.comments), Sequence(ds), context.comments)
      invariant TextOfAll(ds) == MapText(elements[..i]) && (ds == [] <==> i == 0)
    {
      ghost var r0 := context.comments;
      var element := CompileMapElementLine(context, elements[i]);
      EmitsAdded(old(context.comments), ds, r0, Literal(","), element, context.comments);
      ds := Added(ds, Literal(","), element);
      MapTextNext(elements, i);
    }
    assert elements[..|elements|] == elements;
    SequenceText(ds);
    d := Sequence(ds);
  }

  /** An element on its line, with its comments. */
  method CompileMapElementLine(context: Context, element: MapElement) returns (d: Document)
    modifies context
    ensures Emits(old(context.comments), d, context.comments) && TextOf(d) == MapElementText(element)
    decreases element, 1
  {
    hide BlockComment, SuffixComment, Before, Emits, NotesOf, WellNoted, TextOf, MapElementText;
    ghost var r0 := context.comments;
    var before := CompileBlockComment(context, MapElementLine(element));
    ghost var r1 := context.comments;
    var e := CompileMapElement(context, element);
    ghost var r2 := context.comments;
    var after := CompileSuffixComment(context, MapElementLine(element));
    Commented(r0, before, r1, e, r2, after, context.comments);
    OnItsLine(r0, Cat3(before, e, after), context.comments);
    d := Cat2(Line, Cat3(before, e, after));
  }

  method CompileMapElement(context: Context, element: MapElement) returns (d: Document)
    modifies context
    ensures Emits(old(context.comments), d, context.comments) && TextOf(d) == MapElementText(element)
    decreases element, 0
  {
    hide IsExpected;
    match element
    case Insertion(key, value, _) =>
      var k := CompileExpression(context, key);
      ghost var r1 := context.comments;
      var v := CompileExpression(context, value);
      EmitsCat3(old(context.comments), k, r1, Code(": "), r1, v, context.comments);
      d := Cat3(k, Code(": "), v);
    case Merge(expression) => d := CompileSpread(context, expression);
    case Removal(expression) => d := CompileExpression(context, expression);
  }

  method CompileListComprehension(context: Context, e: Expression) returns (d: Document)
    requires e.ListComprehension?
    modifies context
    ensures Emits(old(context.comments), d, context.comments) && TextOf(d) == ExpressionText(e)
    decreases e, 1
  {
    var elements := CompileComprehension(context, e, e.element, ["for ", e.elementName, " in "], e.list);
    assert ConcatAll(["for ", e.elementName, " in "]) == "for " + e.elementName + " in " by {
      ConcatThree("for ", e.elementName, " in ");
    }
    var flat := e.line == LineOf(e.element) && !IsBroken(elements);
    ghost var r0, r1 := old(context.comments), context.comments;
    assert ExpressionText(e) == "[" + TypeText(e.elementType) + TextOf(elements) + "]";
    hide Emits, NotesOf, WellNoted, TextOf, ExpressionText, TypeText, CompileType, WrappedLines, IsBroken;
    var wrapped := WrappedLines(flat, elements, Empty());
    WrappedLinesEmits(r0, elements, r1, flat, Empty());
    Bracketed(r0, "[", CompileType(e.elementType), wrapped, r1, "]");
    d := Cat4(Code("["), CompileType(e.elementType), wrapped, Code("]"));
  }

  method CompileMapIterationComprehension(context: Context, e: Expression) returns (d: Document)
    requires e.MapIterationComprehension?
    modifies context
    ensures Emits(old(context.comments), d, context.comments) && TextOf(d) == ExpressionText(e)
    decreases e, 1
  {
    var elements := CompileComprehension(context, e, e.element, ["for ", e.keyName, ", ", e.valueName, " in "], e.map_);
    assert ConcatAll(["for ", e.keyName, ", ", e.valueName, " in "]) == "for " + e.keyName + ", " + e.valueName + " in " by {
      ConcatFive("for ", e.keyName, ", ", e.valueName, " in ");
    }
    var flat := e.line == LineOf(e.element) && !IsBroken(elements);
    ghost var r0, r1 := old(context.comments), context.comments;
    assert ExpressionText(e) == "[" + TypeText(e.elementType) + TextOf(elements) + "]";
    hide Emits, NotesOf, WellNoted, TextOf, ExpressionText, TypeText, CompileType, WrappedLines, IsBroken;
    var wrapped := WrappedLines(flat, elements, Empty());
    WrappedLinesEmits(r0, elements, r1, flat, Empty());
    Bracketed(r0, "[", CompileType(e.elementType), wrapped, r1, "]");
    d := Cat4(Code("["), CompileType(e.elementType), wrapped, Code("]"));
  }

  /** Joins strings from left to right. */
  function ConcatAll(texts: seq<string>): string {
    if texts == [] then "" else ConcatAll(texts[..|texts| - 1]) + texts[|texts| - 1]
  }

  lemma ConcatSnoc(texts: seq<string>, text: string)
    ensures ConcatAll(texts + [text]) == ConcatAll(texts) + text
  {
    assert (texts + [text])[..|texts|] == texts;
  }

  lemma ConcatThree(a: string, b: string, c: string)
    ensures ConcatAll([a, b, c]) == a + b + c
  {
    Units(a);
    ConcatSnoc([], a);
    ConcatSnoc([a], b);
    ConcatSnoc([a, b], c);
    assert [] + [a] == [a] && [a] + [b] == [a, b] && [a, b] + [c] == [a, b, c];
  }

  lemma ConcatFive(a: string, b: string, c: string, d: string, e: string)
    ensures ConcatAll([a, b, c, d, e]) == a + b + c + d + e
  {
    ConcatThree(a, b, c);
    ConcatSnoc([a, b, c], d);
    ConcatSnoc([a, b, c, d], e);
    assert [a, b, c] + [d] == [a, b, c, d] && [a, b, c, d] + [e] == [a, b, c, d, e];
  }

  /** The element of a comprehension and its iteration, which takes the comments of the element's line, too. */
  method CompileComprehension(context: Context, e: Expression, element: Expression, iteration: seq<string>,
                      collection: Expression)
    returns (d: Document)
    requires element < e && collection < e
    modifies context
    ensures Emits(old(context.comments), d, context.comments)
    ensures TextOf(d) == ExpressionText(element) + (ConcatAll(iteration) + ExpressionText(collection))
    decreases e, 0
  {
    hide IsExpectedLine, Emits, NotesOf, WellNoted, TextOf, ExpressionText, ConcatAll;
    ghost var r0 := context.comments;
    var one := CompileCommented(context, element);
    ghost var r1 := context.comments;
    var two := CompileIteration(context, e, LineOf(element), iteration, collection);
    ghost var r2 := context.comments;
    OnItsLine(r0, one, r1);
    OnItsLine(r1, two, r2);
    EmitsCat2(r0, Cat2(Line, one), r1, Cat2(Line, two), r2);
    d := Cat2(Cat2(Line, one), Cat2(Line, two));
  }

  method CompileIteration(context: Context, e: Expression, line: Position, iteration: seq<string>, collection: Expression)
    returns (d: Document)
    requires collection < e
    modifies context
    ensures Emits(old(context.comments), d, context.comments)
    ensures TextOf(d) == ConcatAll(iteration) + ExpressionText(collection)
    decreases collection, 3
  {
    hide BlockComment, SuffixComment, Before, IsExpected, Emits, NotesOf, WellNoted, TextOf, ExpressionText, ConcatAll;
    ghost var r0 := context.comments;
    var before := CompileBlockComment(context, line);
    ghost var r1 := context.comments;
    var c := CompileExpression(context, collection);
    ghost var r2 := context.comments;
    var after := CompileSuffixComment(context, line);
    var head := Code(ConcatAll(iteration));
    CodeEmits(ConcatAll(iteration), r1);
    CodeText(ConcatAll(iteration));
    EmitsCat2(r1, head, r1, c, r2);
    Commented(r0, before, r1, Cat2(head, c), r2, after, context.comments);
    d := Cat3(before, Cat2(head, c), after);
  }

  method CompileRecord(context: Context, e: Expression) returns (d: Document)
    requires e.Record?
    modifies context
    ensures Emits(old(context.comments), d, context.comments) && TextOf(d) == ExpressionText(e)
    decreases e, 1
  {
    ghost var r0 := context.comments;
    var ds := CompileBase(context, e.base);
    var elements := CompileFields(context, ds, e.fields, BaseText(e.base), r0);
    ghost var r2 := context.comments;
    var first := if e.base.Some? then Some(LineOf(e.base.value)) else if e.fields == [] then None else Some(e.fields[0].line);
    var flat := (e.base.None? && e.fields == []) || (first == Some(e.line) && !IsBroken(elements));
    assert ExpressionText(e) == e.typeName + "{" + RecordText(BaseText(e.base), e.fields) + "}";
    assert TextOf(Code("{")) == "{" && Quiet(Code("{"));
    hide Emits, NotesOf, WellNoted, TextOf, ExpressionText, RecordText, Wrapped, IsBroken;
    var wrapped := Wrapped(flat, elements);
    WrappedEmits(r0, elements, r2, flat);
    Bracketed(r0, e.typeName, Code("{"), wrapped, r2, "}");
    d := Cat4(Code(e.typeName), Code("{"), wrapped, Code("}"));
  }

  method CompileBase(context: Context, base: Option<Expression>) returns (ds: seq<Document>)
    modifies context
    ensures Emits(old(context.comments), Sequence(ds), context.comments) && TextOfAll(ds) == RecordText(BaseText(base), [])
    ensures ds == [] <==> base.None?
    decreases base, 0
  {
    hide BlockComment, SuffixComment, Before;
    NothingEmits(context.comments);
    match base
    case None =>
      ds := [];
    case Some(record) =>
      hide Emits, NotesOf, WellNoted, TextOf, ExpressionText;
      ghost var r0 := context.comments;
      var before := CompileBlockComment(context, LineOf(record));
      ghost var r1 := context.comments;
      var spread := CompileSpread(context, record);
      ghost var r2 := context.comments;
      var after := CompileSuffixComment(context, LineOf(record));
      Commented(r0, before, r1, spread, r2, after, context.comments);
      var element := Cat3(before, spread, after);
      EmitsAdded(r0, [], r0, Separator(), element, context.comments);
      ds := Added([], Separator(), element);
  }

  method CompileFields(context: Context, base: seq<Document>, fields: seq<RecordField>,
                       ghost baseText: Option<string>, ghost before: seq<Comment>) returns (d: Document)
    requires Emits(before, Sequence(base), context.comments) && TextOfAll(base) == RecordText(baseText, [])
    requires base == [] <==> baseText.None?
    modifies context
    ensures Emits(before, d, context.comments) && TextOf(d) == RecordText(baseText, fields)
    decreases fields, 0
  {
    hide Emits, NotesOf, WellNoted, TextOf, TextOfAll, Separated, Separator, Literal, Added, FieldText;
    var ds := base;
    for i := 0 to |fields|
      invariant Emits(before, Sequence(ds), context.comments)
      invariant TextOfAll(ds) == RecordText(baseText, fields[..i]) && (ds == [] <==> i == 0 && base == [])
    {
      ghost var r0 := context.comments;
      var element := CompileFieldLine(context, fields[i]);
      EmitsAdded(before, ds, r0, Separator(), element, context.comments);
      ds := Added(ds, Separator(), element);
      assert fields[..i + 1][..i] == fields[..i];
    }
    assert fields[..|fields|] == fields;
    SequenceText(ds);
    d := Sequence(ds);
  }

  /** A field between its comments. */
  method CompileFieldLine(context: Context, field: RecordField) returns (d: Document)
    modifies context
    ensures Emits(old(context.comments), d, context.comments) && TextOf(d) == FieldText(field)
    decreases field, 1
  {
    hide BlockComment, SuffixComment, Before, Emits, NotesOf, WellNoted, TextOf, FieldText;
    ghost var r0 := context.comments;
    var before := CompileBlockComment(context, field.line);
    ghost var r1 := context.comments;
    var f := CompileField(context, field);
    ghost var r2 := context.comments;
    var after := CompileSuffixComment(context, field.line);
    Commented(r0, before, r1, f, r2, after, context.comments);
    d := Cat3(before, f, after);
  }

  method CompileField(context: Context, field: RecordField) returns (d: Document)
    modifies context
    ensures Emits(old(context.comments), d, context.comments) && TextOf(d) == FieldText(field)
    decreases field, 0
  {
    hide IsExpected, Emits, NotesOf, WellNoted, TextOf, ExpressionText;
    match field
    case RecordField(name, expression, _) =>
      var e := CompileExpression(context, expression);
      ghost var r0 := old(context.comments);
      CodeEmits(name, r0);
      CodeEmits(": ", r0);
      CodeText(name);
      CodeText(": ");
      EmitsCat3(r0, Code(name), r0, Code(": "), r0, e, context.comments);
      d := Cat3(Code(name), Code(": "), e);
  }

  // ----- Functions and blocks -----

  predicate AreArgumentsFlat(arguments: seq<Argument>, line: Position) {
    arguments == [] || line == arguments[0].type_.line
  }

  method CompileSignature(context: Context, arguments: seq<Argument>, resultType: Type, line: Position) returns (d: Document)
    modifies context
    ensures Emits(old(context.comments), d, context.comments) && TextOf(d) == SignatureText(arguments, resultType)
  {
    ghost var r0 := context.comments;
    var declarations := CompileDeclarations(context, arguments);
    ghost var r1 := context.comments;
    var flat := AreArgumentsFlat(arguments, line);
    var result := CompileType(resultType);
    assert SignatureText(arguments, resultType) == "\\(" + DeclarationsText(arguments) + ") " + TypeText(resultType);
    assert Quiet(result) && TextOf(result) == TypeText(resultType);
    hide Emits, NotesOf, WellNoted, TextOf, DeclarationsText, TypeText, SignatureText, CompileType, Wrapped, Quiet;
    var wrapped := Wrapped(flat, declarations);
    WrappedEmits(r0, declarations, r1, flat);
    QuietEmits(result, r1);
    CodeEmits("\\(", r0);
    CodeEmits(") ", r1);
    CodeText("\\(");
    CodeText(") ");
    EmitsCat4(r0, Code("\\("), r0, wrapped, r1, Code(") "), r1, result, r1);
    d := Cat4(Code("\\("), wrapped, Code(") "), result);
  }

  lemma DeclarationsTextNone()
    ensures DeclarationsText([]) == ""
  {
  }

  lemma DeclarationsTextNext(es: seq<Argument>, i: nat)
    requires i < |es|
    ensures DeclarationsText(es[..i + 1]) == Separated(DeclarationsText(es[..i]), i == 0, ",", es[i].name + " " + TypeText(es[i].type_))
  {
    hide Separated, TypeText;
    var init := es[..i + 1];
    assert init[..i] == es[..i] && init[i] == es[i];
  }

  method CompileDeclarations(context: Context, arguments: seq<Argument>) returns (d: Document)
    modifies context
    ensures Emits(old(context.comments), d, context.comments) && TextOf(d) == DeclarationsText(arguments)
    decreases arguments, 0
  {
    hide Emits, NotesOf, WellNoted, TextOf, TextOfAll, Separated, Separator, Literal, Added, DeclarationsText;
    var ds: seq<Document> := [];
    NothingEmits(context.comments);
    DeclarationsTextNone();
    for i := 0 to |arguments|
      invariant Emits(old(context.comments), Sequence(ds), context.comments)
      invariant TextOfAll(ds) == DeclarationsText(arguments[..i]) && (ds == [] <==> i == 0)
    {
      ghost var r0 := context.comments;
      var element := CompileDeclaration(context, arguments[i]);
      EmitsAdded(old(context.comments), ds, r0, Separator(), element, context.comments);
      ds := Added(ds, Separator(), element);
      DeclarationsTextNext(arguments, i);
    }
    assert arguments[..|arguments|] == arguments;
    SequenceText(ds);
    d := Sequence(ds);
  }

  function DeclarationDocument(argument: Argument): (d: Document)
    ensures Quiet(d) && TextOf(d) == argument.name + " " + TypeText(argument.type_)
  {
    Cat3(Code(argument.name), Code(" "), CompileType(argument.type_))
  }

  method CompileDeclaration(context: Context, argument: Argument) returns (d: Document)
    modifies context
    ensures Emits(old(context.comments), d, context.comments)
    ensures TextOf(d) == argument.name + " " + TypeText(argument.type_)
  {
    hide BlockComment, SuffixComment, Before, Emits, NotesOf, WellNoted, TextOf, TypeText, Quiet;
    ghost var r0 := context.comments;
    var before := CompileBlockComment(context, argument.type_.line);
    ghost var r1 := context.comments;
    var declaration := DeclarationDocument(argument);
    var after := CompileSuffixComment(context, argument.type_.line);
    QuietEmits(declaration, r1);
    Commented(r0, before, r1, declaration, r1, after, context.comments);
    d := Cat3(before, declaration, after);
  }

  method CompileLambda(context: Context, lambda: Lambda) returns (d: Document)
    modifies context
    ensures Emits(old(context.comments), d, context.comments) && TextOf(d) == LambdaText(lambda)
    decreases lambda, 0
  {
    match lambda
    case Lambda(arguments, resultType, body, line) =>
      var signature := CompileSignature(context, arguments, resultType, line);
      ghost var r1 := context.comments;
      var block := CompileBlock(context, body);
      hide BlockText, SignatureText, Emits, NotesOf, WellNoted, TextOf, FlattenIf;
      var flat := AreArgumentsFlat(arguments, line) && line == LineOf(body.expression);
      Flattened(r1, block, context.comments, flat);
      Spaced(old(context.comments), signature, r1, FlattenIf(flat, block), context.comments);
      d := Cat3(signature, Code(" "), FlattenIf(flat, block));
  }

  method CompileBlock(context: Context, block: Block) returns (d: Document)
    modifies context
    ensures Emits(old(context.comments), d, context.comments) && TextOf(d) == BlockText(block)
    decreases block, 0
  {
    hide IsExpectedLine;
    match block
    case Block(statements, expression) =>
      ghost var r0 := old(context.comments);
      var head := CompileStatements(context, statements, LineOf(expression));
      ghost var r1 := context.comments;
      var last := CompileCommented(context, expression);
      ghost var r2 := context.comments;
      assert BlockText(block) == "{" + (StatementsText(statements) + ExpressionText(expression)) + "}";
      hide BlockText, StatementsText, ExpressionText;
      EmitsCat2(r0, head, r1, last, r2);
      Braced(r0, Cat2(head, last), r2);
      d := Cat4(Code("{"), Indent(Cat2(Line, Cat2(head, last))), Line, Code("}"));
  }

  lemma Braced(r0: seq<Comment>, content: Document, r1: seq<Comment>)
    requires Emits(r0, content, r1)
    ensures var d := Cat4(Code("{"), Indent(Cat2(Line, content)), Line, Code("}"));
            Emits(r0, d, r1) && TextOf(d) == "{" + TextOf(content) + "}"
  {
    OnItsLine(r0, content, r1);
    var indented := Indent(Cat2(Line, content));
    EmitsSame(r0, Cat2(Line, content), r1, indented);
    EmitsCat4(r0, Code("{"), r0, indented, r1, Line, r1, Code("}"), r1);
    Units("{" + TextOf(indented));
  }

  method CompileStatements(context: Context, statements: seq<Statement>, end: Position) returns (d: Document)
    modifies context
    ensures Emits(old(context.comments), d, context.comments) && TextOf(d) == StatementsText(statements)
    decreases statements, 0
  {
    hide Emits, NotesOf, WellNoted, TextOf, TextOfAll, Separated, Separator, Literal, Added, StatementText;
    var ds: seq<Document> := [];
    NothingEmits(context.comments);
    for i := 0 to |statements|
      invariant Emits(old(context.comments), Sequence(ds), context.comments)
      invariant TextOfAll(ds) == StatementsText(statements[..i])
    {
      ghost var r0 := context.comments;
      var next := if i + 1 < |statements| then statements[i + 1].line else end;
      var statement := CompileStatementLines(context, statements[i], next);
      EmitsSnoc(old(context.comments), ds, r0, statement, context.comments);
      ds := ds + [statement];
      assert statements[..i + 1][..i] == statements[..i];
    }
    assert statements[..|statements|] == statements;
    SequenceText(ds);
    d := Sequence(ds);
  }

  function ExtraLine(condition: bool): (d: Document)
    ensures Quiet(d) && TextOf(d) == ""
  {
    if condition then Line else Empty()
  }

  /** A statement with the comments before it, and an empty line if one follows it in the source. */
  method CompileStatementLines(context: Context, statement: Statement, next: Position) returns (d: Document)
    modifies context
    ensures Emits(old(context.comments), d, context.comments) && TextOf(d) == StatementText(statement)
    decreases statement, 1
  {
    hide BlockComment, SuffixComment, Before;
    ghost var r0 := context.comments;
    var before := CompileBlockComment(context, statement.line);
    ghost var r1 := context.comments;
    var comments := context.PeekCommentsBefore(next);
    var lineCount := next - statement.line - comments;
    var s := CompileStatement(context, statement);
    ghost var r2 := context.comments;
    hide StatementText, CountLines, Emits, NotesOf, WellNoted, TextOf, ExtraLine;
    var extraLine := ExtraLine(CountLines(s) < lineCount);
    QuietEmits(extraLine, r2);
    Commented(r0, before, r1, s, r2, extraLine, r2);
    d := Cat3(before, s, extraLine);
  }

  function StatementHead(name: Option<string>): (d: Document)
    ensures Quiet(d) && TextOf(d) == if name.Some? then name.value + " = " else ""
  {
    if name.Some? then Cat2(Code(name.value), Code(" = ")) else Empty()
  }

  lemma LineEndEmits(r: seq<Comment>)
    ensures Emits(r, Break(true, Line), r) && TextOf(Break(true, Line)) == ""
  {
  }

  method CompileStatement(context: Context, statement: Statement) returns (d: Document)
    modifies context
    ensures Emits(old(context.comments), d, context.comments) && TextOf(d) == StatementText(statement)
    decreases statement, 0
  {
    hide BlockComment, SuffixComment, Before, IsExpected, Emits, NotesOf, WellNoted, TextOf, Quiet, ExpressionText;
    match statement
    case Statement(name, expression, line) =>
      var head := StatementHead(name);
      assert StatementText(statement) == TextOf(head) + ExpressionText(expression);
      hide StatementText, StatementHead;
      var e := CompileExpression(context, expression);
      ghost var r1 := context.comments;
      var after := CompileSuffixComment(context, line);
      ghost var r0, r2 := old(context.comments), context.comments;
      QuietEmits(head, r0);
      LineEndEmits(r2);
      EmitsCat4(r0, head, r0, e, r1, after, r2, Break(true, Line), r2);
      d := Cat4(head, e, after, Break(true, Line));
      Units(TextOf(head) + TextOf(e));
  }
}
