/**
 Documents that the formatter builds, and how they are rendered.

 Strings that come from comments and separators that only follow the last element of a broken list
 are kept apart from the code.
 */
module Documents {

  datatype Document =
    | Break(broken: bool, document: Document)
    | Indent(document: Document)
    | Line
    | LineSuffix(comment: string)     // a comment at the end of a line
    | Sequence(documents: seq<Document>)
    | Code(text: string)
    | Trailing                        // the separator after a last element
    | Note(comment: string)           // a comment on its own line

  function Empty(): Document {
    Code("")
  }

  predicate IsBroken(d: Document) {
    match d
    case Break(broken, _) => broken
    case Indent(document) => IsBroken(document)
    case Sequence(documents) => exists i :: 0 <= i < |documents| && IsBroken(documents[i])
    case _ => false
  }

  function CountLines(d: Document): nat {
    match d
    case Break(broken, document) => if broken then CountLines(document) else 0
    case Indent(document) => CountLines(document)
    case Line => 1
    case Sequence(documents) => CountAllLines(documents)
    case _ => 0
  }

  function CountAllLines(ds: seq<Document>): nat {
    if ds == [] then 0 else CountLines(ds[0]) + CountAllLines(ds[1..])
  }

  function FlattenIf(condition: bool, d: Document): Document {
    Break(!condition || IsBroken(d), d)
  }

  // ----- Content -----

  /** The comments in a document, in order. */
  function NotesOf(d: Document): seq<string> {
    match d
    case Break(_, document) => NotesOf(document)
    case Indent(document) => NotesOf(document)
    case LineSuffix(comment) => [comment]
    case Sequence(documents) => NotesOfAll(documents)
    case Note(comment) => [comment]
    case _ => []
  }

  function NotesOfAll(ds: seq<Document>): seq<string> {
    if ds == [] then [] else NotesOf(ds[0]) + NotesOfAll(ds[1..])
  }

  /** The code in a document, apart from white space and trailing separators. */
  function TextOf(d: Document): string {
    match d
    case Break(_, document) => TextOf(document)
    case Indent(document) => TextOf(document)
    case Sequence(documents) => TextOfAll(documents)
    case Code(text) => text
    case _ => ""
  }

  function TextOfAll(ds: seq<Document>): string {
    if ds == [] then "" else TextOf(ds[0]) + TextOfAll(ds[1..])
  }

  /** Separates the code of a list element from what is before it. */
  function Separated(before: string, isFirst: bool, separator: string, text: string): string {
    if isFirst then text else before + separator + text
  }

  /** Comments on their own lines are followed by line breaks. */
  predicate WellNoted(d: Document) {
    match d
    case Break(_, document) => WellNoted(document)
    case Indent(document) => WellNoted(document)
    case Sequence(documents) => AllWellNoted(documents)
    case Note(_) => false
    case _ => true
  }

  predicate AllWellNoted(ds: seq<Document>) {
    ds == [] ||
    if ds[0].Note? then |ds| > 1 && ds[1] == Break(true, Line) && AllWellNoted(ds[2..])
    else WellNoted(ds[0]) && AllWellNoted(ds[1..])
  }

  // ----- Rendering -----

  datatype Output = Text(text: string) | Comma | Space | NewLine | Indentation | Remark(comment: string)

  /** What has been put out, the comments that wait for the end of the line, and the indentation of a new line. */
  datatype Rendering = Rendering(outputs: seq<Output>, suffixes: seq<string>, nextLevel: nat)

  function Flush(r: Rendering): Rendering {
    Rendering(r.outputs + seq(r.nextLevel, _ => Indentation), r.suffixes, 0)
  }

  function Remarks(comments: seq<string>): seq<Output> {
    seq(|comments|, i requires 0 <= i < |comments| => Remark(comments[i]))
  }

  function RenderLine(r: Rendering, level: nat): Rendering {
    Rendering(r.outputs + Remarks(r.suffixes) + [NewLine], [], level)
  }

  /** Rendering a document after what has been rendered before. */
  function Render(r: Rendering, d: Document, level: nat, broken: bool): Rendering
    decreases d
  {
    match d
    case Break(broken, document) => Render(r, document, level, broken)
    case Indent(document) => Render(r, document, level + 1, broken)
    case Line => if broken then RenderLine(r, level) else r.(outputs := r.outputs + [Space])
    case LineSuffix(comment) => var r := Flush(r); r.(suffixes := r.suffixes + [comment])
    case Sequence(documents) => RenderAll(r, documents, level, broken)
    case Code(text) => if text == "" then r else var r := Flush(r); r.(outputs := r.outputs + [Text(text)])
    case Trailing => var r := Flush(r); r.(outputs := r.outputs + [Comma])
    case Note(comment) => var r := Flush(r); r.(outputs := r.outputs + [Remark(comment)])
  }

  function RenderAll(r: Rendering, ds: seq<Document>, level: nat, broken: bool): Rendering
    decreases ds
  {
    if ds == [] then r else RenderAll(Render(r, ds[0], level, broken), ds[1..], level, broken)
  }

  /** The renderer: it walks a document once and changes its state on the way. */
  class Renderer {
    var outputs: seq<Output>
    var suffixes: seq<string>
    var nextLevel: nat

    function State(): Rendering
      reads this
    {
      Rendering(outputs, suffixes, nextLevel)
    }

    constructor ()
      ensures State() == Rendering([], [], 0)
    {
      outputs := [];
      suffixes := [];
      nextLevel := 0;
    }

    method FormatLine(level: nat)
      modifies this
      ensures State() == RenderLine(old(State()), level)
    {
      outputs := outputs + Remarks(suffixes) + [NewLine];
      suffixes := [];
      nextLevel := level;
    }

    method DoFlush()
      modifies this
      ensures State() == Flush(old(State()))
    {
      outputs := outputs + seq(nextLevel, _ => Indentation);
      nextLevel := 0;
    }

    method FormatDocument(d: Document, level: nat, broken: bool)
      modifies this
      ensures State() == Render(old(State()), d, level, broken)
      decreases d
    {
      match d
      case Break(broken', document) => FormatDocument(document, level, broken');
      case Indent(document) => FormatDocument(document, level + 1, broken);
      case Line =>
        if broken {
          FormatLine(level);
        } else {
          outputs := outputs + [Space];
        }
      case LineSuffix(comment) =>
        DoFlush();
        suffixes := suffixes + [comment];
      case Sequence(documents) =>
        for i := 0 to |documents|
          invariant RenderAll(old(State()), documents, level, broken) == RenderAll(State(), documents[i..], level, broken)
        {
          assert documents[i..][1..] == documents[i + 1..];
          FormatDocument(documents[i], level, broken);
        }
      case Code(text) =>
        if text != "" {
          DoFlush();
          outputs := outputs + [Text(text)];
        }
      case Trailing =>
        DoFlush();
        outputs := outputs + [Comma];
      case Note(comment) =>
        DoFlush();
        outputs := outputs + [Remark(comment)];
    }
  }

  // ----- Reading what has been rendered -----

  /** Reading state: the code and the comments so far, and whether the rest of the line is a comment. */
  datatype Reading = Reading(code: string, comments: seq<string>, inComment: bool)

  /** The last comment goes on. */
  function Extended(comments: seq<string>, text: string): (r: seq<string>)
    ensures comments != [] ==> |r| == |comments|
  {
    if comments == [] then [text] else comments[..|comments| - 1] + [comments[|comments| - 1] + text]
  }

  /** A reader takes everything after the start of a comment to be part of it, up to the end of the line. */
  function ReadNext(reading: Reading, output: Output): Reading {
    match output
    case NewLine => reading.(inComment := false)
    case Remark(comment) =>
      if reading.inComment then reading.(comments := Extended(reading.comments, " #" + comment))
      else reading.(comments := reading.comments + [comment], inComment := true)
    case Text(text) =>
      if reading.inComment then reading.(comments := Extended(reading.comments, text))
      else reading.(code := reading.code + text)
    case _ => reading
  }

  function Read(outputs: seq<Output>): Reading {
    if outputs == [] then Reading("", [], false)
    else ReadNext(Read(outputs[..|outputs| - 1]), outputs[|outputs| - 1])
  }

  lemma ReadSnoc(outputs: seq<Output>, output: Output)
    ensures Read(outputs + [output]) == ReadNext(Read(outputs), output)
  {
    assert (outputs + [output])[..|outputs|] == outputs;
  }

  lemma {:induction false} ReadIndentation(outputs: seq<Output>, n: nat)
    ensures Read(outputs + seq(n, _ => Indentation)) == Read(outputs)
  {
    if n == 0 {
      assert outputs + seq(n, _ => Indentation) == outputs;
    } else {
      ReadIndentation(outputs, n - 1);
      assert outputs + seq(n, _ => Indentation) == (outputs + seq(n - 1, _ => Indentation)) + [Indentation];
      ReadSnoc(outputs + seq(n - 1, _ => Indentation), Indentation);
    }
  }

  /** Comments on the same line: only the first one is read as a comment of its own. */
  function ReadRemarks(reading: Reading, comments: seq<string>): Reading
    decreases |comments|
  {
    if comments == [] then reading
    else ReadNext(ReadRemarks(reading, comments[..|comments| - 1]), Remark(comments[|comments| - 1]))
  }

  lemma {:induction false} RemarksAreRead(outputs: seq<Output>, comments: seq<string>)
    ensures Read(outputs + Remarks(comments)) == ReadRemarks(Read(outputs), comments)
    decreases |comments|
  {
    if comments == [] {
      assert outputs + Remarks(comments) == outputs;
    } else {
      hide ReadNext, Read;
      var init, last := comments[..|comments| - 1], comments[|comments| - 1];
      RemarksAreRead(outputs, init);
      assert Remarks(comments) == Remarks(init) + [Remark(last)];
      Regroup(outputs, Remarks(init), [Remark(last)]);
      ReadSnoc(outputs + Remarks(init), Remark(last));
    }
  }

  lemma Regroup<T>(a: seq<T>, b: seq<T>, c: seq<T>)
    ensures a + (b + c) == (a + b) + c
  {
  }

  lemma {:induction false} RemarksCount(reading: Reading, comments: seq<string>)
    requires reading.inComment ==> reading.comments != []
    ensures var after := ReadRemarks(reading, comments);
            && after.code == reading.code && after.inComment == (reading.inComment || comments != [])
            && (after.inComment ==> after.comments != [])
            && |after.comments| == |reading.comments| + if reading.inComment || comments == [] then 0 else 1
    ensures !reading.inComment && |comments| == 1 ==> ReadRemarks(reading, comments).comments == reading.comments + comments
    decreases |comments|
  {
    if comments != [] {
      RemarksCount(reading, comments[..|comments| - 1]);
      assert comments == comments[..|comments| - 1] + [comments[|comments| - 1]];
    }
  }

  lemma ReadFlushed(r: Rendering)
    ensures Read(Flush(r).outputs) == Read(r.outputs)
  {
    ReadIndentation(r.outputs, r.nextLevel);
  }

  /** The comments that are read if the line ends now. */
  function Seen(r: Rendering): seq<string> {
    ReadRemarks(Read(r.outputs), r.suffixes).comments
  }

  /** Whether the line at the end of a document has a comment, if the line at its start has one or not. */
  function Busy(d: Document, broken: bool, busy: bool): bool
    decreases d
  {
    match d
    case Break(broken, document) => Busy(document, broken, busy)
    case Indent(document) => Busy(document, broken, busy)
    case Line => !broken && busy
    case LineSuffix(_) => true
    case Sequence(documents) => BusyAll(documents, broken, busy)
    case Code(_) => busy
    case Trailing => busy
    case Note(_) => true
  }

  function BusyAll(ds: seq<Document>, broken: bool, busy: bool): bool
    decreases ds
  {
    if ds == [] then busy else BusyAll(ds[1..], broken, Busy(ds[0], broken, busy))
  }

  /** How many comments of a document are put after another one on the same line. */
  function Merged(d: Document, broken: bool, busy: bool): nat
    decreases d
  {
    match d
    case Break(broken, document) => Merged(document, broken, busy)
    case Indent(document) => Merged(document, broken, busy)
    case LineSuffix(_) => if busy then 1 else 0
    case Sequence(documents) => MergedAll(documents, broken, busy)
    case Note(_) => if busy then 1 else 0
    case _ => 0
  }

  function MergedAll(ds: seq<Document>, broken: bool, busy: bool): nat
    decreases ds
  {
    if ds == [] then 0 else Merged(ds[0], broken, busy) + MergedAll(ds[1..], broken, Busy(ds[0], broken, busy))
  }

  /** Every line of a rendered document has at most one comment. */
  predicate Apart(d: Document) {
    Merged(d, true, false) == 0
  }

  /**
   Rendering adds the code of a document, and a reader mistakes no code for a comment.  All comments
   are read but those that are put after another one on the same line, which become part of that one.
   */
  ghost predicate Renders(r: Rendering, code: string, notes: seq<string>, busy: bool, merged: nat, r': Rendering) {
    && Read(r'.outputs).code == Read(r.outputs).code + code
    && |Seen(r')| + merged == |Seen(r)| + |notes|
    && (merged == 0 ==> Seen(r') == Seen(r) + notes)
    && !Read(r'.outputs).inComment && (busy <==> r'.suffixes != [])
  }

  lemma RendersThen(r: Rendering, code: string, notes: seq<string>, busy: bool, merged: nat, r': Rendering,
                    code': string, notes': seq<string>, busy': bool, merged': nat, r'': Rendering)
    requires Renders(r, code, notes, busy, merged, r') && Renders(r', code', notes', busy', merged', r'')
    ensures Renders(r, code + code', notes + notes', busy', merged + merged', r'')
  {
    hide Seen, Read;
  }

  lemma RenderedLine(r: Rendering, level: nat)
    requires !Read(r.outputs).inComment
    ensures Renders(r, "", [], false, 0, RenderLine(r, level))
  {
    RemarksAreRead(r.outputs, r.suffixes);
    RemarksCount(Read(r.outputs), r.suffixes);
    ReadSnoc(r.outputs + Remarks(r.suffixes), NewLine);
    assert Read(r.outputs).code + "" == Read(r.outputs).code && Seen(r) + [] == Seen(r);
  }

  lemma RenderedOne(r: Rendering, output: Output)
    requires !Read(r.outputs).inComment && (output.Text? || output.Comma? || output.Space?)
    ensures var r' := r.(outputs := r.outputs + [output]);
            Renders(r, if output.Text? then output.text else "", [], r.suffixes != [], 0, r')
  {
    var r' := r.(outputs := r.outputs + [output]);
    ReadSnoc(r.outputs, output);
    assert Read(r.outputs).code + "" == Read(r.outputs).code && Seen(r) + [] == Seen(r);
    SameComments(Read(r.outputs), Read(r'.outputs), r.suffixes);
  }

  /** Which comments are read does not depend on the code before them. */
  lemma {:induction false} SameComments(a: Reading, b: Reading, comments: seq<string>)
    requires a.comments == b.comments && a.inComment == b.inComment
    ensures ReadRemarks(a, comments).comments == ReadRemarks(b, comments).comments
    ensures ReadRemarks(a, comments).inComment == ReadRemarks(b, comments).inComment
    decreases |comments|
  {
    if comments != [] {
      SameComments(a, b, comments[..|comments| - 1]);
    }
  }

  lemma RenderedSuffix(r: Rendering, comment: string)
    requires !Read(r.outputs).inComment
    ensures Renders(r, "", [comment], true, if r.suffixes != [] then 1 else 0, r.(suffixes := r.suffixes + [comment]))
  {
    var comments := r.suffixes + [comment];
    assert comments[..|comments| - 1] == r.suffixes;
    RemarksCount(Read(r.outputs), r.suffixes);
    RemarksCount(Read(r.outputs), comments);
    assert Read(r.outputs).code + "" == Read(r.outputs).code;
    if r.suffixes == [] {
      assert comments == [comment];
    }
  }

  lemma RemarksNone(reading: Reading)
    ensures ReadRemarks(reading, []) == reading
  {
  }

  lemma RenderedNote(r: Rendering, comment: string, level: nat)
    requires !Read(r.outputs).inComment
    ensures var f := Flush(r);
            var r' := RenderLine(f.(outputs := f.outputs + [Remark(comment)]), level);
            Renders(r, "", [comment], false, if r.suffixes != [] then 1 else 0, r')
  {
    hide Read, ReadRemarks, Remarks;
    ReadFlushed(r);
    var f := Flush(r);
    var outputs := f.outputs + [Remark(comment)];
    RemarksNone(Read(r.outputs));
    RemarksNone(Read(outputs));
    RemarksNone(Read(outputs + Remarks(r.suffixes) + [NewLine]));
    ReadSnoc(f.outputs, Remark(comment));
    RemarksAreRead(outputs, r.suffixes);
    RemarksCount(Read(outputs), r.suffixes);
    RemarksCount(Read(r.outputs), r.suffixes);
    ReadSnoc(outputs + Remarks(r.suffixes), NewLine);
    assert Read(r.outputs).code + "" == Read(r.outputs).code;
  }

  lemma Flushed(r: Rendering, code: string, notes: seq<string>, busy: bool, merged: nat, r': Rendering)
    requires Renders(Flush(r), code, notes, busy, merged, r')
    ensures Renders(r, code, notes, busy, merged, r')
  {
    ReadFlushed(r);
  }

  /** No comment swallows code: the reader sees the code of a rendered document, and its comments up to merged ones. */
  lemma {:induction false} RenderIsLegible(r: Rendering, d: Document, level: nat, broken: bool)
    requires WellNoted(d) && !Read(r.outputs).inComment
    ensures Renders(r, TextOf(d), NotesOf(d), Busy(d, broken, r.suffixes != []), Merged(d, broken, r.suffixes != []),
                    Render(r, d, level, broken))
    decreases d
  {
    hide Renders;
    ReadFlushed(r);
    match d
    case Break(broken', document) => RenderIsLegible(r, document, level, broken');
    case Indent(document) => RenderIsLegible(r, document, level + 1, broken);
    case Line =>
      RenderedLine(r, level);
      RenderedOne(r, Space);
    case LineSuffix(comment) =>
      RenderedSuffix(Flush(r), comment);
      Flushed(r, "", [comment], true, if r.suffixes != [] then 1 else 0, Render(r, d, level, broken));
    case Sequence(documents) => RenderAllIsLegible(r, documents, level, broken);
    case Code(text) =>
      if text != "" {
        RenderedOne(Flush(r), Text(text));
        Flushed(r, text, [], r.suffixes != [], 0, Render(r, d, level, broken));
      } else {
        NothingRendered(r);
      }
    case Trailing =>
      RenderedOne(Flush(r), Comma);
      Flushed(r, "", [], r.suffixes != [], 0, Render(r, d, level, broken));
  }

  lemma NothingRendered(r: Rendering)
    requires !Read(r.outputs).inComment
    ensures Renders(r, "", [], r.suffixes != [], 0, r)
  {
    assert Read(r.outputs).code + "" == Read(r.outputs).code && Seen(r) + [] == Seen(r);
  }

  lemma {:induction false} RenderAllIsLegible(r: Rendering, ds: seq<Document>, level: nat, broken: bool)
    requires AllWellNoted(ds) && !Read(r.outputs).inComment
    ensures Renders(r, TextOfAll(ds), NotesOfAll(ds), BusyAll(ds, broken, r.suffixes != []), MergedAll(ds, broken, r.suffixes != []),
                    RenderAll(r, ds, level, broken))
    decreases ds
  {
    var busy := r.suffixes != [];
    if ds == [] {
      NothingRendered(r);
    } else if ds[0].Note? {
      var f := Flush(r);
      var r' := RenderLine(f.(outputs := f.outputs + [Remark(ds[0].comment)]), level);
      RenderPair(r, ds, level, broken);
      PairContent(ds, broken, busy);
      RenderedNote(r, ds[0].comment, level);
      assert !Read(r'.outputs).inComment && r'.suffixes == [];
      RenderAllIsLegible(r', ds[2..], level, broken);
      hide Renders, Flush, RenderLine;
      RendersThen(r, "", [ds[0].comment], false, if busy then 1 else 0, r', TextOfAll(ds[2..]), NotesOfAll(ds[2..]),
                  BusyAll(ds[2..], broken, false), MergedAll(ds[2..], broken, false), RenderAll(r, ds, level, broken));
    } else {
      var r' := Render(r, ds[0], level, broken);
      RenderIsLegible(r, ds[0], level, broken);
      assert !Read(r'.outputs).inComment && (r'.suffixes != [] <==> Busy(ds[0], broken, busy));
      RenderAllIsLegible(r', ds[1..], level, broken);
      hide Renders, Render;
      var busy' := Busy(ds[0], broken, busy);
      RendersThen(r, TextOf(ds[0]), NotesOf(ds[0]), busy', Merged(ds[0], broken, busy), r', TextOfAll(ds[1..]), NotesOfAll(ds[1..]),
                  BusyAll(ds[1..], broken, busy'), MergedAll(ds[1..], broken, busy'), RenderAll(r, ds, level, broken));
    }
  }

  /** A comment on its own line takes two documents. */
  lemma RenderPair(r: Rendering, ds: seq<Document>, level: nat, broken: bool)
    requires |ds| > 1 && ds[0].Note? && ds[1] == Break(true, Line)
    ensures var f := Flush(r);
            var r' := RenderLine(f.(outputs := f.outputs + [Remark(ds[0].comment)]), level);
            RenderAll(r, ds, level, broken) == RenderAll(r', ds[2..], level, broken)
  {
    hide Flush, RenderLine;
    var a := Render(r, ds[0], level, broken);
    assert ds[1..][0] == ds[1] && ds[1..][1..] == ds[2..];
    assert Render(a, Break(true, Line), level, broken) == Render(a, Line, level, true);
    assert RenderAll(r, ds, level, broken) == RenderAll(a, ds[1..], level, broken);
  }

  lemma PairContent(ds: seq<Document>, broken: bool, busy: bool)
    requires |ds| > 1 && ds[0].Note? && ds[1] == Break(true, Line)
    ensures TextOfAll(ds) == "" + TextOfAll(ds[2..]) && NotesOfAll(ds) == [ds[0].comment] + NotesOfAll(ds[2..])
    ensures BusyAll(ds, broken, busy) == BusyAll(ds[2..], broken, false)
    ensures MergedAll(ds, broken, busy) == (if busy then 1 else 0) + MergedAll(ds[2..], broken, false)
  {
    assert Merged(ds[1], broken, true) == Merged(Line, true, true) == 0 && !Busy(ds[1], broken, true);
    assert MergedAll(ds[1..], broken, true) == MergedAll(ds[2..], broken, false);
    assert BusyAll(ds[1..], broken, true) == BusyAll(ds[2..], broken, false);
    assert ds[1..][1..] == ds[2..];
    assert TextOf(ds[0]) == "" && TextOf(ds[1]) == "" && NotesOf(ds[1]) == [];
    assert TextOfAll(ds[1..]) == "" + TextOfAll(ds[2..]);
    assert NotesOfAll(ds[1..]) == [] + NotesOfAll(ds[2..]);
  }
}
