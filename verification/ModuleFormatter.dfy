/** The formatter of whole modules: no comment is lost, duplicated or reordered, and no code is swallowed. */
module ModuleFormatter {
  import opened Sums
  import opened Documents
  import opened Comments
  import opened Modules
  import opened Building
  import opened Formatter

  function TypeDefinitionText(d: TypeDefinition): string {
    match d
    case RecordDefinition(name, fields, _) => "type " + name + " {" + FieldsText(fields) + "}"
    case TypeAlias(name, type_, _) =>
      "type " + name + " =" + (if IsBroken(CompileType(type_)) then "" else " ") + TypeText(type_)
  }

  // ----- Imports -----

  /** A document that leaves no comment waiting for the end of a line. */
  ghost predicate Settles(d: Document) {
    forall r: Rendering, level: nat :: r.suffixes == [] ==> Render(r, d, level, true).suffixes == []
  }

  ghost predicate AllSettle(ds: seq<Document>) {
    forall i :: 0 <= i < |ds| ==> Settles(ds[i])
  }

  lemma {:induction false} AllSettled(r: Rendering, ds: seq<Document>, level: nat)
    requires AllSettle(ds) && r.suffixes == []
    ensures RenderAll(r, ds, level, true).suffixes == []
    decreases |ds|
  {
    if ds != [] {
      assert Settles(ds[0]);
      assert AllSettle(ds[1..]) by {
        assert forall i :: 0 <= i < |ds[1..]| ==> ds[1..][i] == ds[i + 1];
      }
      AllSettled(Render(r, ds[0], level, true), ds[1..], level);
    }
  }

  lemma SequenceSettles(ds: seq<Document>)
    requires AllSettle(ds)
    ensures Settles(Sequence(ds))
  {
    forall r: Rendering, level: nat | r.suffixes == [] ensures Render(r, Sequence(ds), level, true).suffixes == [] {
      AllSettled(r, ds, level);
    }
  }

  lemma {:induction false} RenderAllSnoc(r: Rendering, ds: seq<Document>, d: Document, level: nat)
    ensures RenderAll(r, ds + [d], level, true) == Render(RenderAll(r, ds, level, true), d, level, true)
    decreases |ds|
  {
    hide Render;
    if ds == [] {
      assert ds + [d] == [d] && [d][1..] == [];
    } else {
      assert (ds + [d])[0] == ds[0] && (ds + [d])[1..] == ds[1..] + [d];
      RenderAllSnoc(Render(r, ds[0], level, true), ds[1..], d, level);
    }
  }

  /** A line break at the end settles whatever is before it. */
  lemma LineSettles(ds: seq<Document>)
    ensures Settles(Sequence(ds + [Line]))
  {
    forall r: Rendering, level: nat ensures Render(r, Sequence(ds + [Line]), level, true).suffixes == [] {
      RenderAllSnoc(r, ds, Line, level);
    }
  }

  /** Documents of definitions: each of them takes at least a line and is ended by a line break. */
  ghost predicate Section(before: seq<Comment>, ds: seq<Document>, after: seq<Comment>, text: string) {
    && Emits(before, Sequence(ds), after) && TextOfAll(ds) == text
    && (CountAllLines(ds) == 0 ==> ds == [])
    && AllSettle(ds)
  }

  lemma SectionNone(r: seq<Comment>)
    ensures Section(r, [], r, "")
  {
  }

  lemma SectionNext(r0: seq<Comment>, ds: seq<Document>, r1: seq<Comment>, text: string, d: Document, r2: seq<Comment>)
    requires Section(r0, ds, r1, text) && Emits(r1, d, r2) && CountLines(d) > 0 && Settles(d)
    ensures Section(r0, ds + [d], r2, text + TextOf(d))
  {
    EmitsSnoc(r0, ds, r1, d, r2);
  }

  /** A definition after its comments, ended by a line break. */
  lemma Defined(r0: seq<Comment>, before: Document, r1: seq<Comment>, d: Document, r2: seq<Comment>)
    requires Emits(r0, before, r1) && TextOf(before) == "" && Emits(r1, d, r2)
    ensures var all := Cat3(before, d, Line);
            Emits(r0, all, r2) && TextOf(all) == TextOf(d) && CountLines(all) > 0 && Settles(all)
  {
    LineSettles([before, d]);
    EmitsCat3(r0, before, r1, d, r2, Line, r2);
    Units(TextOf(d));
    AddedFacts([before, d], Line);
    assert [before, d] + [Line] == [before, d, Line];
    assert CountLines(Line) == 1;
  }

  function NamesDocument(names: seq<string>): (d: Document)
    ensures Quiet(d) && TextOf(d) == NamesText(names)
  {
    Code(NamesText(names))
  }

  function ImportDocument(i: Import): (d: Document)
    ensures Quiet(d) && TextOf(d) == ImportText(i)
  {
    var prefix := if i.prefix.Some? then Cat2(Code(" as "), Code(i.prefix.value)) else Empty();
    var names := if i.names == [] then Empty() else Cat3(Code(" { "), NamesDocument(i.names), Code(" }"));
    assert TextOf(names) == if i.names == [] then "" else " { " + NamesText(i.names) + " }";
    Cat4(Code("import "), Code(i.path), prefix, names)
  }

  method CompileImport(context: Context, i: Import) returns (d: Document)
    modifies context
    ensures Emits(old(context.comments), d, context.comments) && TextOf(d) == ImportText(i) && CountLines(d) > 0 && Settles(d)
  {
    hide BlockComment, SuffixComment, Before, Emits, NotesOf, WellNoted, TextOf, CountLines, Settles, Quiet, ImportText, ImportDocument;
    var before := CompileBlockComment(context, i.line);
    var all := ImportDocument(i);
    QuietEmits(all, context.comments);
    Defined(old(context.comments), before, context.comments, all, context.comments);
    d := Cat3(before, all, Line);
  }

  function Convention(convention: CallingConvention): (d: Document)
    ensures Quiet(d) && TextOf(d) == if convention.C? then " \"c\"" else ""
  {
    if convention.C? then Code(" \"c\"") else Empty()
  }

  function ForeignImportDocument(i: ForeignImport): (d: Document)
    ensures Quiet(d) && TextOf(d) == ForeignImportText(i)
  {
    Cat6(Code("import foreign"), Convention(i.convention), Code(" "), Code(i.name), Code(" "), CompileType(i.type_))
  }

  method CompileForeignImport(context: Context, i: ForeignImport) returns (d: Document)
    modifies context
    ensures Emits(old(context.comments), d, context.comments) && TextOf(d) == ForeignImportText(i) && CountLines(d) > 0 && Settles(d)
  {
    hide BlockComment, SuffixComment, Before, Emits, NotesOf, WellNoted, TextOf, CountLines, Settles, Quiet, ForeignImportText, ForeignImportDocument;
    var before := CompileBlockComment(context, i.line);
    var all := ForeignImportDocument(i);
    QuietEmits(all, context.comments);
    Defined(old(context.comments), before, context.comments, all, context.comments);
    d := Cat3(before, all, Line);
  }

  function ImportsText(imports: seq<Import>): string {
    if imports == [] then ""
    else ImportsText(imports[..|imports| - 1]) + ImportText(imports[|imports| - 1])
  }

  method CompileImports(context: Context, imports: seq<Import>) returns (ds: seq<Document>)
    modifies context
    ensures Section(old(context.comments), ds, context.comments, ImportsText(imports))
  {
    hide Emits, TextOf, CountLines, Settles, ImportText, Section;
    ds := [];
    SectionNone(context.comments);
    for i := 0 to |imports|
      invariant Section(old(context.comments), ds, context.comments, ImportsText(imports[..i]))
    {
      ghost var r1 := context.comments;
      var d := CompileImport(context, imports[i]);
      SectionNext(old(context.comments), ds, r1, ImportsText(imports[..i]), d, context.comments);
      ds := ds + [d];
      assert imports[..i + 1][..i] == imports[..i];
    }
    assert imports[..|imports|] == imports;
  }

  function ForeignImportsText(imports: seq<ForeignImport>): string {
    if imports == [] then ""
    else ForeignImportsText(imports[..|imports| - 1]) + ForeignImportText(imports[|imports| - 1])
  }

  method CompileForeignImports(context: Context, imports: seq<ForeignImport>) returns (ds: seq<Document>)
    modifies context
    ensures Section(old(context.comments), ds, context.comments, ForeignImportsText(imports))
  {
    hide Emits, TextOf, CountLines, Settles, ForeignImportText, Section;
    ds := [];
    SectionNone(context.comments);
    for i := 0 to |imports|
      invariant Section(old(context.comments), ds, context.comments, ForeignImportsText(imports[..i]))
    {
      ghost var r1 := context.comments;
      var d := CompileForeignImport(context, imports[i]);
      SectionNext(old(context.comments), ds, r1, ForeignImportsText(imports[..i]), d, context.comments);
      ds := ds + [d];
      assert imports[..i + 1][..i] == imports[..i];
    }
    assert imports[..|imports|] == imports;
  }

  // ----- Definitions -----

  /** Fields on lines of their own. */
  function CompileTypeFields(fields: seq<Argument>): (d: Document)
    ensures Quiet(d) && TextOf(d) == FieldsText(fields)
  {
    if fields == [] then Empty()
    else
      var field := fields[|fields| - 1];
      var type_ := CompileType(field.type_);
      var last := Cat3(Code(field.name), Code(" "), type_);
      Units(TextOf(last));
      Cat2(CompileTypeFields(fields[..|fields| - 1]), Cat2(Line, last))
  }

  /** The definition itself contains no comments. */
  function CompileRecordDefinition(name: string, fields: seq<Argument>): (d: Document)
    ensures Quiet(d) && TextOf(d) == "type " + name + " {" + FieldsText(fields) + "}"
  {
    var content := CompileTypeFields(fields);
    var body := if fields == [] then Empty() else Cat2(Indent(content), Line);
    Units(TextOf(content));
    assert Quiet(body) && TextOf(body) == FieldsText(fields);
    Cat5(Code("type "), Code(name), Code(" {"), body, Code("}"))
  }

  function CompileTypeAlias(name: string, type_: Type): (d: Document)
    ensures Quiet(d)
    ensures TextOf(d) == "type " + name + " =" + (if IsBroken(CompileType(type_)) then "" else " ") + TypeText(type_)
  {
    var t := CompileType(type_);
    var space := if IsBroken(t) then Line else Code(" ");
    var body := if IsBroken(t) then Indent(t) else t;
    assert Quiet(body) && TextOf(body) == TypeText(type_);
    assert Quiet(space) && TextOf(space) == if IsBroken(t) then "" else " ";
    Cat5(Code("type "), Code(name), Code(" ="), space, body)
  }

  function TypeDefinitionDocument(definition: TypeDefinition): (d: Document)
    ensures Quiet(d) && TextOf(d) == TypeDefinitionText(definition)
  {
    match definition
    case RecordDefinition(name, fields, _) => CompileRecordDefinition(name, fields)
    case TypeAlias(name, type_, _) => CompileTypeAlias(name, type_)
  }

  method CompileTypeDefinition(context: Context, definition: TypeDefinition) returns (d: Document)
    modifies context
    ensures Emits(old(context.comments), d, context.comments) && TextOf(d) == TypeDefinitionText(definition)
    ensures CountLines(d) > 0 && Settles(d)
  {
    hide BlockComment, SuffixComment, Before, Emits, NotesOf, WellNoted, TextOf, CountLines, Settles, Quiet, TypeDefinitionText, TypeDefinitionDocument;
    var before := CompileBlockComment(context, definition.line);
    var all := TypeDefinitionDocument(definition);
    QuietEmits(all, context.comments);
    Defined(old(context.comments), before, context.comments, all, context.comments);
    d := Cat3(before, all, Line);
  }

  function Exported(foreignExport: Option<CallingConvention>): (d: Document)
    ensures Quiet(d)
  {
    match foreignExport
    case None => Empty()
    case Some(C) => Code("foreign \"c\" ")
    case Some(Native) => Code("foreign ")
  }

  lemma FunctionDefined(definition: FunctionDefinition, lambda: Document)
    requires TextOf(lambda) == LambdaText(definition.lambda)
    ensures TextOf(Cat4(Exported(definition.foreignExport), Code(definition.name), Code(" = "), lambda)) == FunctionDefinitionText(definition)
  {
    hide LambdaText, NotesOf, WellNoted;
    assert TextOf(Exported(definition.foreignExport)) ==
           match definition.foreignExport case None => "" case Some(C) => "foreign \"c\" " case Some(Native) => "foreign ";
  }

  method CompileFunctionDefinition(context: Context, definition: FunctionDefinition) returns (d: Document)
    modifies context
    ensures Emits(old(context.comments), d, context.comments) && TextOf(d) == FunctionDefinitionText(definition)
    ensures CountLines(d) > 0 && Settles(d)
  {
    hide BlockComment, SuffixComment, Before, Emits, NotesOf, WellNoted, TextOf, CountLines, Settles, Quiet, FunctionDefinitionText, LambdaText, Exported;
    ghost var r0 := context.comments;
    var before := CompileBlockComment(context, definition.line);
    ghost var r1 := context.comments;
    var exported := Exported(definition.foreignExport);
    var lambda := CompileLambda(context, definition.lambda);
    ghost var r2 := context.comments;
    var all := Cat4(exported, Code(definition.name), Code(" = "), lambda);
    FunctionDefined(definition, lambda);
    QuietEmits(exported, r1);
    CodeEmits(definition.name, r1);
    CodeEmits(" = ", r1);
    EmitsCat4(r1, exported, r1, Code(definition.name), r1, Code(" = "), r1, lambda, r2);
    Defined(r0, before, r1, all, r2);
    d := Cat3(before, all, Line);
  }

  function TypeDefinitionsText(definitions: seq<TypeDefinition>): string {
    if definitions == [] then ""
    else TypeDefinitionsText(definitions[..|definitions| - 1]) + TypeDefinitionText(definitions[|definitions| - 1])
  }

  lemma SectionLine(r0: seq<Comment>, ds: seq<Document>, r1: seq<Comment>, text: string)
    requires Section(r0, ds, r1, text)
    ensures Section(r0, if ds == [] then [] else ds + [Line], r1, text)
  {
    if ds != [] {
      QuietEmits(Line, r1);
      LineSettles([]);
      assert forall r: Rendering, level: nat :: Render(r, Line, level, true) == RenderLine(r, level);
      assert Settles(Line);
      SectionNext(r0, ds, r1, text, Line, r1);
      Units(text);
    }
  }

  method CompileTypeDefinitions(context: Context, definitions: seq<TypeDefinition>) returns (ds: seq<Document>)
    modifies context
    ensures Section(old(context.comments), ds, context.comments, TypeDefinitionsText(definitions))
  {
    hide Emits, TextOf, CountLines, Settles, TypeDefinitionText, Section;
    ds := [];
    SectionNone(context.comments);
    for i := 0 to |definitions|
      invariant Section(old(context.comments), ds, context.comments, TypeDefinitionsText(definitions[..i]))
    {
      ghost var r1 := context.comments;
      ghost var text := TypeDefinitionsText(definitions[..i]);
      var d := CompileTypeDefinition(context, definitions[i]);
      SectionLine(old(context.comments), ds, r1, text);
      ds := if ds == [] then [] else ds + [Line];
      SectionNext(old(context.comments), ds, r1, text, d, context.comments);
      ds := ds + [d];
      assert definitions[..i + 1][..i] == definitions[..i];
    }
    assert definitions[..|definitions|] == definitions;
  }

  function FunctionDefinitionsText(definitions: seq<FunctionDefinition>): string {
    if definitions == [] then ""
    else FunctionDefinitionsText(definitions[..|definitions| - 1]) + FunctionDefinitionText(definitions[|definitions| - 1])
  }

  method CompileFunctionDefinitions(context: Context, definitions: seq<FunctionDefinition>) returns (ds: seq<Document>)
    modifies context
    ensures Section(old(context.comments), ds, context.comments, FunctionDefinitionsText(definitions))
  {
    hide Emits, TextOf, CountLines, Settles, FunctionDefinitionText, Section;
    ds := [];
    SectionNone(context.comments);
    for i := 0 to |definitions|
      invariant Section(old(context.comments), ds, context.comments, FunctionDefinitionsText(definitions[..i]))
    {
      ghost var r1 := context.comments;
      ghost var text := FunctionDefinitionsText(definitions[..i]);
      var d := CompileFunctionDefinition(context, definitions[i]);
      SectionLine(old(context.comments), ds, r1, text);
      ds := if ds == [] then [] else ds + [Line];
      SectionNext(old(context.comments), ds, r1, text, d, context.comments);
      ds := ds + [d];
      assert definitions[..i + 1][..i] == definitions[..i];
    }
    assert definitions[..|definitions|] == definitions;
  }

  // ----- Modules -----

  function Imports(imports: seq<Import>, external: bool): seq<Import> {
    if imports == [] then []
    else (if imports[0].external == external then [imports[0]] else []) + Imports(imports[1..], external)
  }

  function ModuleText(m: Module): string {
    ImportsText(Imports(m.imports, true)) + ImportsText(Imports(m.imports, false))
    + ForeignImportsText(m.foreignImports) + TypeDefinitionsText(m.typeDefinitions)
    + FunctionDefinitionsText(m.functionDefinitions)
  }

  /** What has been collected of a module. */
  ghost predicate Collected(before: seq<Comment>, all: Document, after: seq<Comment>, text: string) {
    && Emits(before, all, after) && TextOf(all) == text && Settles(all)
    && (CountLines(all) == 0 ==> all == Empty())
  }

  /** Adds a section, after an empty line, unless it is empty. */
  function Collect(all: Document, d: Document): Document {
    if CountLines(d) == 0 then all
    else Cat2(if CountLines(all) == 0 then Empty() else Cat2(all, Line), d)
  }

  lemma PairSettles(a: Document, b: Document)
    requires Settles(a) && Settles(b)
    ensures Settles(Cat2(a, b)) && CountLines(Cat2(a, b)) == CountLines(a) + CountLines(b)
  {
    SequenceSettles([a, b]);
    SingleFacts(a);
    AddedFacts([a], b);
    assert [a] + [b] == [a, b];
  }

  lemma LinesSettle()
    ensures Settles(Line) && Settles(Empty())
  {
    assert forall r: Rendering, level: nat :: Render(r, Line, level, true) == RenderLine(r, level);
  }

  lemma EmptyEmits(r0: seq<Comment>, a: Document, r1: seq<Comment>, d: Document, r2: seq<Comment>)
    requires Emits(r0, a, r1) && Emits(r1, d, r2) && NotesOf(d) == []
    ensures Emits(r0, a, r2)
  {
    hide WellNoted, NotesOf;
    assert |r1| == |r2|;
    assert r1 == r2;
  }

  /** What a section is put after: an empty line follows what has been collected. */
  lemma HeadFacts(r0: seq<Comment>, all: Document, r1: seq<Comment>, text: string)
    requires Collected(r0, all, r1, text)
    ensures var head := if CountLines(all) == 0 then Empty() else Cat2(all, Line);
            Emits(r0, head, r1) && TextOf(head) == text && Settles(head)
  {
    LinesSettle();
    hide Settles;
    if CountLines(all) != 0 {
      QuietEmits(Line, r1);
      EmitsCat2(r0, all, r1, Line, r1);
      PairSettles(all, Line);
      Units(text);
    }
  }

  lemma Collects(r0: seq<Comment>, all: Document, r1: seq<Comment>, text: string, d: Document, r2: seq<Comment>)
    requires Collected(r0, all, r1, text) && Emits(r1, d, r2) && Settles(d)
    requires CountLines(d) == 0 ==> NotesOf(d) == [] && TextOf(d) == ""
    ensures Collected(r0, Collect(all, d), r2, text + TextOf(d))
  {
    hide Settles, Emits, NotesOf, WellNoted, TextOf, CountLines;
    Units(text);
    if CountLines(d) == 0 {
      EmptyEmits(r0, all, r1, d, r2);
    } else {
      HeadFacts(r0, all, r1, text);
      var head := if CountLines(all) == 0 then Empty() else Cat2(all, Line);
      EmitsCat2(r0, head, r1, d, r2);
      PairSettles(head, d);
    }
  }

  lemma CollectsSection(r0: seq<Comment>, all: Document, r1: seq<Comment>, text: string,
                        ds: seq<Document>, r2: seq<Comment>, text': string)
    requires Collected(r0, all, r1, text) && Section(r1, ds, r2, text')
    ensures Collected(r0, Collect(all, Sequence(ds)), r2, text + text')
  {
    SequenceSettles(ds);
    SequenceText(ds);
    assert CountLines(Sequence(ds)) == CountAllLines(ds);
    Collects(r0, all, r1, text, Sequence(ds), r2);
  }

  lemma {:induction false} CommentsSettle(comments: seq<Comment>, last: nat)
    ensures AllSettle(CommentDocuments(comments, last))
  {
    if comments != [] {
      CommentsSettle(comments[1..], last);
      var next := if |comments| > 1 then comments[1].lineNumber else last;
      var d := CommentDocument(comments[0], next);
      assert Settles(d) by {
        CommentSettles(comments[0], next);
      }
      hide CommentDocument;
      assert CommentDocuments(comments, last) == [d] + CommentDocuments(comments[1..], last);
    }
  }

  lemma CommentSettles(comment: Comment, next: nat)
    ensures Settles(CommentDocument(comment, next))
  {
    var ds := CommentDocument(comment, next).documents;
    forall r: Rendering, level: nat | r.suffixes == [] ensures Render(r, Sequence(ds), level, true).suffixes == [] {
      RenderPair(r, ds, level, true);
      assert ds[2..] == [ds[2]] && [ds[2]][1..] == [];
    }
  }

  /** The comments that are not before the end of the line numbers are never reached. */
  function Reachable(comments: seq<Comment>): seq<Comment> {
    var sorted := StableSort(comments);
    sorted[..Before(sorted, MAX_LINE)]
  }

  method CompileRemainingBlockComment(context: Context) returns (d: Document)
    modifies context
    ensures Emits(old(context.comments), d, context.comments) && TextOf(d) == "" && Settles(d)
    ensures CountLines(d) == 0 ==> NotesOf(d) == []
    ensures context.comments != [] ==> context.comments[0].lineNumber >= MAX_LINE
  {
    var drained := context.DrainCommentsBefore(MAX_LINE);
    d := CompileAllComments(drained, 0);
    CommentsSettle(drained, 0);
    SequenceSettles(CommentDocuments(drained, 0));
  }

  lemma ReachedAll(before: seq<Comment>, d: Document, after: seq<Comment>)
    requires Emits(before, d, after) && (after != [] ==> after[0].lineNumber >= MAX_LINE)
    ensures NotesOf(d) == Texts(before[..Before(before, MAX_LINE)])
  {
    hide NotesOf, WellNoted;
    var k := |before| - |after|;
    assert k < |before| ==> before[k] == before[k..][0];
    assert Before(before, MAX_LINE) == k;
  }

  /** The comments in the document of a module are its comments in the order of their lines. */
  method Format(m: Module, comments: seq<Comment>) returns (d: Document)
    ensures NotesOf(d) == Texts(Reachable(comments))
    ensures TextOf(d) == ModuleText(m)
    ensures WellNoted(d) && Settles(d)
  {
    var context := new Context(comments);
    ghost var r0 := context.comments;
    var externals := CompileImports(context, Imports(m.imports, true));
    ghost var r1 := context.comments;
    var internals := CompileImports(context, Imports(m.imports, false));
    ghost var r2 := context.comments;
    var foreigns := CompileForeignImports(context, m.foreignImports);
    ghost var r3 := context.comments;
    var types := CompileTypeDefinitions(context, m.typeDefinitions);
    ghost var r4 := context.comments;
    var functions := CompileFunctionDefinitions(context, m.functionDefinitions);
    ghost var r5 := context.comments;
    var rest := CompileRemainingBlockComment(context);
    ghost var r6 := context.comments;
    hide Section, Emits, Settles, NotesOf, TextOf, WellNoted, CountLines;
    d := CollectAll(r0, externals, r1, ImportsText(Imports(m.imports, true)),
                    internals, r2, ImportsText(Imports(m.imports, false)),
                    foreigns, r3, ForeignImportsText(m.foreignImports),
                    types, r4, TypeDefinitionsText(m.typeDefinitions),
                    functions, r5, FunctionDefinitionsText(m.functionDefinitions), rest, r6);
    ReachedAll(r0, d, r6);
  }

  method CollectAll(ghost r0: seq<Comment>, a: seq<Document>, ghost r1: seq<Comment>, ghost ta: string,
                    b: seq<Document>, ghost r2: seq<Comment>, ghost tb: string,
                    c: seq<Document>, ghost r3: seq<Comment>, ghost tc: string,
                    d: seq<Document>, ghost r4: seq<Comment>, ghost td: string,
                    e: seq<Document>, ghost r5: seq<Comment>, ghost te: string,
                    rest: Document, ghost r6: seq<Comment>) returns (all: Document)
    requires Section(r0, a, r1, ta) && Section(r1, b, r2, tb) && Section(r2, c, r3, tc)
    requires Section(r3, d, r4, td) && Section(r4, e, r5, te)
    requires Emits(r5, rest, r6) && TextOf(rest) == "" && Settles(rest) && (CountLines(rest) == 0 ==> NotesOf(rest) == [])
    ensures Emits(r0, all, r6) && TextOf(all) == ta + tb + tc + td + te && WellNoted(all) && Settles(all)
  {
    all := Empty();
    NothingCollected(r0);
    hide Section, Emits, Settles, NotesOf, TextOf, CountLines, Collect, Collected;
    CollectsSection(r0, all, r0, "", a, r1, ta);
    all := Collect(all, Sequence(a));
    Units(ta);
    CollectsSection(r0, all, r1, ta, b, r2, tb);
    all := Collect(all, Sequence(b));
    CollectsSection(r0, all, r2, ta + tb, c, r3, tc);
    all := Collect(all, Sequence(c));
    CollectsSection(r0, all, r3, ta + tb + tc, d, r4, td);
    all := Collect(all, Sequence(d));
    CollectsSection(r0, all, r4, ta + tb + tc + td, e, r5, te);
    all := Collect(all, Sequence(e));
    Units(ta + tb + tc + td + te);
    Collects(r0, all, r5, ta + tb + tc + td + te, rest, r6);
    all := Collect(all, rest);
    CollectedFacts(r0, all, r6, ta + tb + tc + td + te);
  }

  lemma NothingCollected(r: seq<Comment>)
    ensures Collected(r, Empty(), r, "")
  {
  }

  lemma CollectedFacts(before: seq<Comment>, all: Document, after: seq<Comment>, text: string)
    requires Collected(before, all, after, text)
    ensures Emits(before, all, after) && TextOf(all) == text && WellNoted(all) && Settles(all)
  {
  }

  /**
   A reader of a rendered document sees its code, and its comments but those that are put after
   others on the same line.  All of them are read, in order, exactly if there are none.
   */
  lemma ReadsAsWritten(d: Document)
    requires WellNoted(d) && Settles(d)
    ensures var read := Read(Render(Rendering([], [], 0), d, 0, true).outputs);
            && read.code == TextOf(d) && |read.comments| + Merged(d, true, false) == |NotesOf(d)|
            && (read.comments == NotesOf(d) <==> Apart(d))
  {
    var start := Rendering([], [], 0);
    var r := Render(start, d, 0, true);
    assert r.suffixes == [];
    RenderIsLegible(start, d, 0, true);
    assert Read(start.outputs) == Reading("", [], false);
    assert Seen(r) == Read(r.outputs).comments && Seen(start) == [];
    Units(TextOf(d));
    Units(NotesOf(d));
  }

  /**
   A formatted module reads as the code of the module, no code is mistaken for a comment, and no
   comment for code.  Its comments are its reachable ones in the order of their lines, exactly if
   every line has at most one; otherwise those that follow others on a line become part of them.
   */
  method FormatModule(m: Module, comments: seq<Comment>) returns (d: Document, outputs: seq<Output>)
    ensures NotesOf(d) == Texts(Reachable(comments)) && TextOf(d) == ModuleText(m)
    ensures outputs == Render(Rendering([], [], 0), d, 0, true).outputs
    ensures Read(outputs).code == ModuleText(m)
    ensures |Read(outputs).comments| + Merged(d, true, false) == |Reachable(comments)|
    ensures Read(outputs).comments == Texts(Reachable(comments)) <==> Apart(d)
  {
    d := Format(m, comments);
    var renderer := new Renderer();
    renderer.FormatDocument(d, 0, true);
    outputs := renderer.outputs;
    ReadsAsWritten(d);
  }

  // ----- Comments that are merged -----

  const ARGUMENTS: seq<Expression> := [Variable("x", 1), Variable("y", 2)]
  const CALL: Expression := Call(Variable("f", 1), ARGUMENTS, 1)
  const FIRST: Comment := Comment(" foo", 1)
  const SECOND: Comment := Comment(" bar", 2)

  /** A name followed by a comment on its line. */
  function Named(name: string, comment: string): Document {
    Sequence([Sequence([]), Code(name), Sequence([LineSuffix(comment)])])
  }

  function Grouped(x: Document, y: Document): Document {
    Break(false, Sequence([x, Separator(), y]))
  }

  /** f(x, # foo and y) # bar on the next line are put on one line, as f(x, y) # foo # bar. */
  function MergedCall(arguments: Document): Document {
    Sequence([Code("f"), Code("("), arguments, Code(")")])
  }

  lemma FirstArgument()
    ensures NameDocument([FIRST, SECOND], ARGUMENTS[0]) == Named("x", " foo")
    ensures NameRest([FIRST, SECOND], ARGUMENTS[0]) == [SECOND]
  {
    var all := [FIRST, SECOND];
    assert Before(all, 1) == 0 && all[..0] == [] && all[0..] == all;
    assert Before(all, 2) == 1 && all[..1] == [FIRST] && all[1..] == [SECOND];
    assert CommentDocuments([], 1) == [];
    assert TrimEnd(" foo") == " foo";
    assert [FIRST][1..] == [] && SuffixDocuments([]) == [];
    assert SuffixDocuments([FIRST]) == [LineSuffix(" foo")];
  }

  lemma SecondArgument()
    ensures NameDocument([SECOND], ARGUMENTS[1]) == Named("y", " bar")
  {
    var all := [SECOND];
    assert Before(all, 2) == 0 && all[..0] == [] && all[0..] == all;
    assert all[1..] == [] && Before([], 3) == 0 && Before(all, 3) == 1 && all[..1] == all;
    assert CommentDocuments([], 2) == [];
    assert TrimEnd(" bar") == " bar";
    assert SuffixDocuments([]) == [];
    assert SuffixDocuments([SECOND]) == [LineSuffix(" bar")];
  }

  lemma ArgumentsAreMerged()
    ensures AreVariables(ARGUMENTS)
    ensures NameDocuments([FIRST, SECOND], ARGUMENTS) == [Named("x", " foo"), Separator(), Named("y", " bar")]
  {
    var all := [FIRST, SECOND];
    FirstArgument();
    SecondArgument();
    hide NameDocument, NameRest, Named, Separator;
    assert ARGUMENTS[..1] == [ARGUMENTS[0]] && [ARGUMENTS[0]][..0] == [];
    assert NameDocuments(all, []) == [] && NamesRest(all, []) == all;
    assert NamesRest(all, ARGUMENTS[..1]) == [SECOND];
    assert NameDocuments(all, ARGUMENTS[..1]) == [NameDocument(all, ARGUMENTS[0])];
  }

  lemma CallIsMerged()
    ensures IsSimpleCall(CALL)
    ensures SimpleCallDocument([FIRST, SECOND], CALL) == MergedCall(Grouped(Named("x", " foo"), Named("y", " bar")))
  {
    ArgumentsAreMerged();
    NotBroken();
    hide NameDocuments, Named, Separator, IsBroken, SimpleCallDocument;
    FlatCall([FIRST, SECOND], CALL, Named("x", " foo"), Named("y", " bar"));
    assert CALL.callee.name == "f";
    hide Grouped;
  }

  lemma FlatCall(comments: seq<Comment>, e: Expression, x: Document, y: Document)
    requires IsSimpleCall(e) && e.arguments != [] && e.callee.line == LineOf(e.arguments[0])
    requires NameDocuments(comments, e.arguments) == [x, Separator(), y] && !IsBroken(Sequence([x, Separator(), y]))
    ensures SimpleCallDocument(comments, e) == Sequence([Code(e.callee.name), Code("("), Grouped(x, y), Code(")")])
  {
    hide NameDocuments, IsBroken, Separator;
    var arguments := Sequence([x, Separator(), y]);
    assert Wrapped(true, arguments) == Grouped(x, y);
    hide Wrapped, Grouped;
    assert SimpleCallDocument(comments, e) == Cat4(Code(e.callee.name), Code("("), Wrapped(true, arguments), Code(")"));
  }

  lemma NotBroken()
    ensures !IsBroken(Sequence([Named("x", " foo"), Separator(), Named("y", " bar")]))
  {
    NameNotBroken("x", " foo");
    NameNotBroken("y", " bar");
    assert !IsBroken(Separator()) by {
      assert !IsBroken(Code(",")) && !IsBroken(Line);
    }
    hide Named, Separator;
  }

  lemma NameNotBroken(name: string, comment: string)
    ensures !IsBroken(Named(name, comment))
  {
    assert !IsBroken(LineSuffix(comment)) && !IsBroken(Code(name));
    assert !IsBroken(Sequence([])) && !IsBroken(Sequence([LineSuffix(comment)]));
  }

  lemma MergedFacts()
    ensures var d := Cat2(MergedCall(Grouped(Named("x", " foo"), Named("y", " bar"))), Line);
            Merged(d, true, false) == 1 && NotesOf(d) == [" foo", " bar"]
  {
    NameMerges("x", " foo", false);
    NameMerges("y", " bar", true);
    SeparatorMerges(true);
    var x, y := Named("x", " foo"), Named("y", " bar");
    hide Named, Separator, Merged, Busy, NotesOf;
    ArgumentsMerge(x, Separator(), y, " foo", " bar");
    CallMerges(Grouped(x, y), [" foo", " bar"]);
  }

  lemma ArgumentsMerge(x: Document, s: Document, y: Document, first: string, second: string)
    requires WellNoted(x) && WellNoted(s) && WellNoted(y)
    requires NotesOf(x) == [first] && NotesOf(s) == [] && NotesOf(y) == [second]
    requires Merged(x, false, false) == 0 && Busy(x, false, false)
    requires Merged(s, false, true) == 0 && Busy(s, false, true)
    requires Merged(y, false, true) == 1 && Busy(y, false, true)
    ensures var d := Break(false, Sequence([x, s, y]));
            && Merged(d, true, false) == 1 && Busy(d, true, false)
            && NotesOf(d) == [first, second] && WellNoted(d)
  {
    var inner := Cat3(x, s, y);
    assert [first] + [] + [second] == [first, second];
    MergedGroup(inner, false, true, false);
    hide Merged, Busy, NotesOf;
    MergedNext([], x, false, false);
    MergedNext([x], s, false, false);
    MergedNext([x, s], y, false, false);
    assert [] + [x] == [x] && [x] + [s] == [x, s] && [x, s] + [y] == [x, s, y];
    MergedSequence([x, s, y], false, false);
  }

  lemma CallMerges(arguments: Document, notes: seq<string>)
    requires Merged(arguments, true, false) == 1 && Busy(arguments, true, false)
    requires NotesOf(arguments) == notes && WellNoted(arguments)
    ensures var d := Cat2(MergedCall(arguments), Line);
            Merged(d, true, false) == 1 && NotesOf(d) == notes
  {
    var f, open, close := Code("f"), Code("("), Code(")");
    CodeMerges(f, true, false);
    CodeMerges(open, true, false);
    CodeMerges(close, true, true);
    CodeMerges(Line, true, true);
    hide Merged, Busy, NotesOf;
    var call := Cat4(f, open, arguments, close);
    var _ := Cat2(call, Line);
    Units(notes);
    MergedNext([], f, true, false);
    MergedNext([f], open, true, false);
    MergedNext([f, open], arguments, true, false);
    MergedNext([f, open, arguments], close, true, false);
    assert [] + [f] == [f] && [f] + [open] == [f, open] && [f, open] + [arguments] == [f, open, arguments]
        && [f, open, arguments] + [close] == [f, open, arguments, close];
    MergedSequence([f, open, arguments, close], true, false);
    LastMerges(call);
  }

  lemma LastMerges(call: Document)
    requires Merged(call, true, false) == 1
    ensures Merged(Cat2(call, Line), true, false) == 1
  {
    CodeMerges(Line, true, Busy(call, true, false));
    hide Merged, Busy;
    MergedNext([], call, true, false);
    MergedNext([call], Line, true, false);
    assert [] + [call] == [call] && [call] + [Line] == [call, Line];
    MergedSequence([call, Line], true, false);
  }

  lemma MergedGroup(d: Document, broken: bool, outer: bool, busy: bool)
    ensures Merged(Break(broken, d), outer, busy) == Merged(d, broken, busy)
    ensures Busy(Break(broken, d), outer, busy) == Busy(d, broken, busy) && NotesOf(Break(broken, d)) == NotesOf(d)
  {
  }

  lemma CodeMerges(d: Document, broken: bool, busy: bool)
    requires d.Code? || d.Line?
    ensures Merged(d, broken, busy) == 0 && (Busy(d, broken, busy) <==> busy && !(d.Line? && broken)) && NotesOf(d) == []
  {
  }

  lemma {:induction false} MergedNext(ds: seq<Document>, d: Document, broken: bool, busy: bool)
    ensures var busy' := BusyAll(ds, broken, busy);
            && MergedAll(ds + [d], broken, busy) == MergedAll(ds, broken, busy) + Merged(d, broken, busy')
            && BusyAll(ds + [d], broken, busy) == Busy(d, broken, busy')
    ensures BusyAll([], broken, busy) == busy && MergedAll([], broken, busy) == 0
    decreases |ds|
  {
    hide Merged, Busy;
    if ds == [] {
      assert ds + [d] == [d] && [d][1..] == [];
    } else {
      MergedNext(ds[1..], d, broken, Busy(ds[0], broken, busy));
      assert (ds + [d])[0] == ds[0] && (ds + [d])[1..] == ds[1..] + [d];
    }
  }

  lemma MergedSequence(ds: seq<Document>, broken: bool, busy: bool)
    ensures Merged(Sequence(ds), broken, busy) == MergedAll(ds, broken, busy)
    ensures Busy(Sequence(ds), broken, busy) == BusyAll(ds, broken, busy)
  {
  }

  lemma SeparatorMerges(busy: bool)
    ensures Merged(Separator(), false, busy) == 0 && Busy(Separator(), false, busy) == busy && NotesOf(Separator()) == []
  {
    PairFacts(Code(","), Line);
    CodeMerges(Code(","), false, busy);
    CodeMerges(Line, false, busy);
    hide Merged, Busy, NotesOf;
    MergedNext([], Code(","), false, busy);
    MergedNext([Code(",")], Line, false, busy);
    assert [] + [Code(",")] == [Code(",")] && [Code(",")] + [Line] == [Code(","), Line];
    MergedSequence([Code(","), Line], false, busy);
  }

  lemma NameMerges(name: string, comment: string, busy: bool)
    ensures var d := Named(name, comment);
            && Merged(d, false, busy) == (if busy then 1 else 0) && Busy(d, false, busy)
            && NotesOf(d) == [comment] && WellNoted(d)
  {
    var none, code, suffix := Sequence([]), Code(name), Sequence([LineSuffix(comment)]);
    SuffixMerges(comment, busy);
    CodeMerges(code, false, busy);
    MergedSequence([], false, busy);
    assert NotesOf(none) == [];
    hide Merged, Busy, NotesOf;
    var _ := Cat3(none, code, suffix);
    assert [] + [] + [comment] == [comment];
    MergedNext([], none, false, busy);
    MergedNext([none], code, false, busy);
    MergedNext([none, code], suffix, false, busy);
    assert [] + [none] == [none] && [none] + [code] == [none, code] && [none, code] + [suffix] == [none, code, suffix];
    MergedSequence([none, code, suffix], false, busy);
  }

  lemma SuffixMerges(comment: string, busy: bool)
    ensures var d := Sequence([LineSuffix(comment)]);
            && Merged(d, false, busy) == (if busy then 1 else 0) && Busy(d, false, busy)
            && NotesOf(d) == [comment] && WellNoted(d)
  {
    SingleFacts(LineSuffix(comment));
    MergedSequence([LineSuffix(comment)], false, busy);
    MergedNext([], LineSuffix(comment), false, busy);
    assert [] + [LineSuffix(comment)] == [LineSuffix(comment)];
  }

  lemma SortedComments()
    ensures StableSort([FIRST, SECOND]) == [FIRST, SECOND]
  {
    assert [FIRST, SECOND][1..] == [SECOND] && [SECOND][1..] == [];
    assert StableSort([]) == [] && StableSort([SECOND]) == [SECOND];
  }

  lemma ExpectedCall(call: Document)
    requires IsExpectedCall(CALL, [FIRST, SECOND], call)
    ensures call == MergedCall(Grouped(Named("x", " foo"), Named("y", " bar")))
  {
    CallIsMerged();
    hide SimpleCallDocument, MergedCall, Grouped, Named;
  }

  lemma EmitsWellNoted(before: seq<Comment>, d: Document, after: seq<Comment>)
    requires Emits(before, d, after)
    ensures WellNoted(d)
  {
  }

  lemma MergedIsRead(call: Document, after: seq<Comment>)
    requires IsExpectedCall(CALL, [FIRST, SECOND], call) && Emits([FIRST, SECOND], call, after)
    ensures var d := Cat2(call, Line);
            && NotesOf(d) == [" foo", " bar"] && !Apart(d)
            && |Read(Render(Rendering([], [], 0), d, 0, true).outputs).comments| == 1
  {
    hide *;
    ExpectedCall(call);
    EmitsWellNoted([FIRST, SECOND], call, after);
    MergedFacts();
    LineSettled(call);
    LineIsQuiet();
    var d := Cat2(call, Line);
    ReadsAsWritten(d);
    NotApart(d);
  }

  lemma LineIsQuiet()
    ensures WellNoted(Line)
  {
  }

  lemma LineSettled(call: Document)
    ensures Settles(Cat2(call, Line))
  {
    LineSettles([call]);
    assert [call] + [Line] == [call, Line];
  }

  lemma NotApart(d: Document)
    requires Merged(d, true, false) > 0
    ensures !Apart(d)
  {
  }

  /** The formatter on this call and its two comments: both are written, and one is read. */
  method MergesComments() returns (d: Document, outputs: seq<Output>)
    ensures NotesOf(d) == [" foo", " bar"] && !Apart(d)
    ensures |Read(outputs).comments| == 1
  {
    hide IsExpectedCall, Apart, NotesOf, TextOf, WellNoted, Read, Render, ExpressionText, Emits, StableSort;
    SortedComments();
    var context := new Context([FIRST, SECOND]);
    var call := CompileCall(context, CALL);
    MergedIsRead(call, context.comments);
    d := Cat2(call, Line);
    var renderer := new Renderer();
    renderer.FormatDocument(d, 0, true);
    outputs := renderer.outputs;
  }

  /** Every comment is reachable exactly if none is at the end of the line numbers. */
  lemma AllReachable(comments: seq<Comment>)
    ensures Reachable(comments) == StableSort(comments) <==> forall c :: c in comments ==> c.lineNumber < MAX_LINE
  {
    var sorted := StableSort(comments);
    SortIsStable(comments, 0);
    SortKeepsAll(comments);
    var n := Before(sorted, MAX_LINE);
    if forall c :: c in comments ==> c.lineNumber < MAX_LINE {
      assert n == |sorted|;
    }
    if Reachable(comments) == sorted {
      assert n == |sorted|;
      forall c | c in comments ensures c.lineNumber < MAX_LINE {
        assert c in sorted;
      }
    }
  }

  /** A comment on the last line is lost. */
  lemma LastLineIsLost(text: string)
    ensures Reachable([Comment(text, MAX_LINE)]) == []
  {
    assert [Comment(text, MAX_LINE)][1..] == [] && StableSort([]) == [];
    assert StableSort([Comment(text, MAX_LINE)]) == [Comment(text, MAX_LINE)];
  }

  lemma {:induction false} SortKeepsAll(comments: seq<Comment>)
    ensures multiset(StableSort(comments)) == multiset(comments)
    ensures forall c :: c in comments <==> c in StableSort(comments)
  {
    if comments != [] {
      SortKeepsAll(comments[1..]);
      InsertKeepsAll(comments[0], StableSort(comments[1..]));
      assert comments == [comments[0]] + comments[1..];
    }
    assert forall c :: c in comments <==> c in multiset(comments);
    assert forall c :: c in StableSort(comments) <==> c in multiset(StableSort(comments));
  }

  lemma {:induction false} InsertKeepsAll(comment: Comment, comments: seq<Comment>)
    ensures multiset(Insert(comment, comments)) == multiset([comment]) + multiset(comments)
  {
    if comments != [] && comment.lineNumber > comments[0].lineNumber {
      InsertKeepsAll(comment, comments[1..]);
      assert comments == [comments[0]] + comments[1..];
    }
  }
}
